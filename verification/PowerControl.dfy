/** From a requested transmit power to an attenuator, an ADC target and a detector channel. */
module PowerControl {
  import opened CArithmetic
  import opened CoarseAttenuator
  import opened PowerDetector

  const FREQUENCIES := 4
  const CAL_FUNC_NOT_SUPPORTED: u16 := 0xFFFF
  const BOOST_RATIO_CDB := 140
  const MAX_BOARD_POWER_CDBM := 3000

  /** The calibration tables of one frequency band. */
  datatype Band = Band(
    coarse: seq<real>,          // power at each attenuator setting
    fwdTempSlope: real,
    calTemp: u16,
    pdetTempSlope: seq<real>,
    freqs: seq<real>,
    fwdShifts: seq<real>,
    pdetShifts: seq<seq<i16>>,
    pdetAdcs: seq<seq<u16>>)
  {
    ghost predicate Valid() {
      && |coarse| == TABLE_LENGTH && |freqs| == |fwdShifts| == FREQUENCIES && Increasing(freqs)
      && |pdetTempSlope| == |pdetShifts| == |pdetAdcs| == NUM_DETECTORS
      && forall d :: 0 <= d < NUM_DETECTORS ==> |pdetShifts[d]| == FREQUENCIES && |pdetAdcs[d]| == TABLE_LENGTH
    }

    /** The shape the searches assume: a calibrated entry before the last, and power falling with attenuation. */
    ghost predicate WellCalibrated() {
      Valid() && FirstValid(coarse, 0) + 2 <= TABLE_LENGTH && DecreasingFrom(coarse, FirstValid(coarse, 0))
    }
  }

  /** The operating conditions of one request. */
  datatype Conditions = Conditions(freqKhz: u32, tempAdc: u16, tempComp: bool) {
    function TempDelta(calTemp: u16): real {
      (tempAdc as int - calTemp) as real
    }

    function FreqMhz(): real {
      freqKhz as real / 1000.0
    }
  }

  function Reals(s: seq<i16>): (r: seq<real>)
    ensures |r| == |s|
    ensures forall i :: 0 <= i < |s| ==> r[i] == s[i] as real
  {
    seq(|s|, i requires 0 <= i < |s| => s[i] as real)
  }

  // ---- Attenuator ----

  /** The requested power, in dBm, less the temperature and frequency compensation. */
  ghost function Target(b: Band, txPowerCdbm: int, c: Conditions): real
    requires b.Valid()
  {
    txPowerCdbm as real / 100.0
    - ((if c.tempComp then b.fwdTempSlope * c.TempDelta(b.calTemp) else 0.0)
       + ShiftAt(b.freqs, b.fwdShifts, c.FreqMhz()))
  }

  method ChooseCoarseAtten(b: Band, pastEnd: real, txPowerCdbm: i16, c: Conditions) returns (atten: u8)
    requires b.Valid()
    ensures atten == Chosen(b.coarse, Target(b, txPowerCdbm, c)) < TABLE_LENGTH
  {
    hide Chosen, ShiftAt;
    var txPowerDbm := txPowerCdbm as real / 100.0;
    var powerOfsTemp := 0.0;
    if c.tempComp {
      powerOfsTemp := b.fwdTempSlope * c.TempDelta(b.calTemp);
    }
    var powerOfsFreq := CompensateFreq(b.freqs, b.fwdShifts, c.FreqMhz());
    txPowerDbm := txPowerDbm - (powerOfsTemp + powerOfsFreq);
    atten := SearchAttenuator(b.coarse, pastEnd, txPowerDbm);
  }

  /** The power that the calibration predicts at an attenuator setting under the given conditions. */
  ghost function PredictedPower(b: Band, atten: nat, c: Conditions): real
    requires b.Valid() && atten < TABLE_LENGTH
  {
    b.coarse[atten] + (if c.tempComp then b.fwdTempSlope * (c.tempAdc as int - b.calTemp) as real else 0.0)
    + ShiftAt(b.freqs, b.fwdShifts, c.freqKhz as real / 1000.0)
  }

  function Miss(power: real, txPowerCdbm: int): real {
    RealAbs(power - txPowerCdbm as real / 100.0)
  }

  /** How far the prediction misses the request is how far the table entry misses the target. */
  lemma MissIsDistance(b: Band, txPowerCdbm: int, c: Conditions, atten: nat)
    requires b.Valid() && atten < TABLE_LENGTH
    ensures Miss(PredictedPower(b, atten, c), txPowerCdbm) == Distance(b.coarse, Target(b, txPowerCdbm, c), atten)
  {
    hide ShiftAt, RealAbs;
    assert PredictedPower(b, atten, c) - txPowerCdbm as real / 100.0 == b.coarse[atten] - Target(b, txPowerCdbm, c);
  }

  /** No calibrated setting is predicted to come closer to the requested power than the chosen one. */
  lemma ChosenPowerIsNearest(b: Band, txPowerCdbm: int, c: Conditions, atten: nat)
    requires b.WellCalibrated() && FirstValid(b.coarse, 0) <= atten < TABLE_LENGTH
    ensures FirstValid(b.coarse, 0) <= Chosen(b.coarse, Target(b, txPowerCdbm, c)) < TABLE_LENGTH
    ensures Miss(PredictedPower(b, Chosen(b.coarse, Target(b, txPowerCdbm, c)), c), txPowerCdbm)
         <= Miss(PredictedPower(b, atten, c), txPowerCdbm)
  {
    hide Chosen, Target, PredictedPower, Miss, Distance;
    ChosenIsNearest(b.coarse, Target(b, txPowerCdbm, c));
    MissIsDistance(b, txPowerCdbm, c, atten);
    MissIsDistance(b, txPowerCdbm, c, Chosen(b.coarse, Target(b, txPowerCdbm, c)));
  }

  /** Requesting more power under the same conditions never selects more attenuation. */
  lemma MorePowerLessAttenuation(b: Band, c: Conditions, low: int, high: int)
    requires b.Valid() && DecreasingFrom(b.coarse, FirstValid(b.coarse, 0))
    requires low <= high
    ensures Chosen(b.coarse, Target(b, high, c)) <= Chosen(b.coarse, Target(b, low, c))
  {
    AttenuationAntitone(b.coarse, Target(b, low, c), Target(b, high, c));
  }

  // ---- Detector ----

  /** The compensated power that detector d's table is searched for. */
  ghost function DetectorPower(b: Band, txPowerCdbm: int, c: Conditions, d: nat): real
    requires b.Valid() && d < NUM_DETECTORS
  {
    txPowerCdbm as real / 100.0
    - (if c.tempComp then b.pdetTempSlope[d] * c.TempDelta(b.calTemp) else 0.0)
    + ShiftAt(b.freqs, Reals(b.pdetShifts[d]), c.FreqMhz()) / 100.0
  }

  ghost function DetectorSearch(b: Band, range: AdcRange, txPowerCdbm: int, c: Conditions, d: nat): Search
    requires b.WellCalibrated() && d < NUM_DETECTORS
    ensures DetectorSearch(b, range, txPowerCdbm, c, d).Valid()
  {
    Search(b.coarse, b.pdetAdcs[d], FirstValid(b.coarse, 0), DetectorPower(b, txPowerCdbm, c, d), range)
  }

  ghost function DetectorSearches(b: Band, range: AdcRange, txPowerCdbm: int, c: Conditions): (r: seq<Search>)
    requires b.WellCalibrated()
    ensures |r| == NUM_DETECTORS
    ensures forall d :: 0 <= d < NUM_DETECTORS ==> r[d].Valid() && r[d] == DetectorSearch(b, range, txPowerCdbm, c, d)
  {
    [DetectorSearch(b, range, txPowerCdbm, c, 0), DetectorSearch(b, range, txPowerCdbm, c, 1),
     DetectorSearch(b, range, txPowerCdbm, c, 2)]
  }

  /** Detector s reads adc: at its hit, or on the line nearest to the power when it has none. */
  ghost predicate Reads(s: Search, hit: bool, adc: u16)
    requires s.Valid()
  {
    exists i :: Found(s, i, hit) && adc == ToUint16(s.Reading(i))
  }

  /** How far a reading is from the middle of the valid range, doubled. */
  function OffCentre(range: AdcRange, adc: u16): nat {
    Abs(range.max as int + range.min - 2 * adc)
  }

  lemma OffCentreIsDistance(range: AdcRange, adc: u16)
    ensures OffCentre(range, adc) as real == 2.0 * RealAbs(adc as real - (range.min as real + range.max as real) / 2.0)
  {
  }

  /** The choice among the three candidate readings when no detector covers the power. */
  ghost predicate FallsBackTo(range: AdcRange, candidates: seq<u16>, adc: u16, d: nat)
    requires |candidates| == NUM_DETECTORS
  {
    if forall e :: 0 <= e < NUM_DETECTORS ==> candidates[e] <= range.min then
      adc == range.min && d == 0
    else if forall e :: 0 <= e < NUM_DETECTORS ==> candidates[e] >= range.max then
      adc == range.max && d == NUM_DETECTORS - 1
    else
      && d < NUM_DETECTORS && adc == candidates[d]
      && (forall e :: 0 <= e < NUM_DETECTORS ==> OffCentre(range, candidates[d]) <= OffCentre(range, candidates[e]))
      // among equally central candidates, detector 0 is preferred to 2, and 2 to 1
      && (d != 0 ==> OffCentre(range, candidates[d]) < OffCentre(range, candidates[0]))
      && (d == 1 ==> OffCentre(range, candidates[1]) < OffCentre(range, candidates[2]))
  }

  /** What power_to_adc promises for three detectors. */
  ghost predicate Selects(s: seq<Search>, range: AdcRange, adc: u16, channel: Channel)
    requires |s| == NUM_DETECTORS && forall d :: 0 <= d < NUM_DETECTORS ==> s[d].Valid()
  {
    if exists d :: 0 <= d < NUM_DETECTORS && Covered(s[d]) then
      exists d :: 0 <= d < NUM_DETECTORS && Covered(s[d]) && (forall e :: d < e < NUM_DETECTORS ==> !Covered(s[e]))
        && channel == PowerLo(d) && Reads(s[d], true, adc)
    else
      exists candidates, d :: FallBack(s, range, candidates, adc, d) && channel == PowerLo(d)
  }

  ghost predicate FallBack(s: seq<Search>, range: AdcRange, candidates: seq<u16>, adc: u16, d: nat)
    requires |s| == NUM_DETECTORS && forall e :: 0 <= e < NUM_DETECTORS ==> s[e].Valid()
  {
    && |candidates| == NUM_DETECTORS && d < NUM_DETECTORS
    && (forall e :: 0 <= e < NUM_DETECTORS ==> Reads(s[e], false, candidates[e]))
    && FallsBackTo(range, candidates, adc, d)
  }

  /** Some bracket of the detector's table contains the power and passes the validity check. */
  ghost predicate Covered(s: Search)
    requires s.Valid()
  {
    exists i :: 0 <= i < |s.powers| && s.Hits(i)
  }

  /** The first calibrated entry among the first length ones, or length. */
  function FirstNonCleared(buffer: seq<real>, length: nat): (idx: nat)
    requires length <= |buffer|
    ensures idx <= length && forall j :: 0 <= j < idx ==> buffer[j] >= CLEARED
    ensures idx < length ==> buffer[idx] < CLEARED
  {
    FirstValid(buffer[..length], 0)
  }

  /**
    The entry power_to_adc starts from and the one after it both lie in the table exactly
    when some entry before the last is calibrated.
   */
  lemma StartsInTableExactlyWhen(table: seq<real>)
    requires |table| == TABLE_LENGTH
    ensures FirstNonCleared(table, TABLE_LENGTH - 1) + 1 < |table| <==> FirstValid(table, 0) + 2 <= TABLE_LENGTH
  {
    var first := FirstNonCleared(table, TABLE_LENGTH - 1);
    assert first < TABLE_LENGTH - 1 ==> first == FirstValid(table, 0);
  }

  /** With every entry cleared the search starts at the last entry and reads one past it. */
  lemma AllClearedStartsPastEnd()
    ensures var table := seq(TABLE_LENGTH, _ => 255.0);
            FirstNonCleared(table, TABLE_LENGTH - 1) + 1 == |table|
  {
  }

  method GetFirstNonClearedIndex(buffer: seq<real>, length: nat) returns (idx: nat)
    requires length <= |buffer|
    ensures idx == FirstNonCleared(buffer, length)
    ensures idx <= length && forall j :: 0 <= j < idx ==> buffer[j] >= 255.0
    ensures idx < length ==> buffer[idx] < 255.0
  {
    for i := 0 to length
      invariant forall j :: 0 <= j < i ==> buffer[j] >= CLEARED
    {
      if buffer[i] < CLEARED {
        return i;
      }
    }
    return length;
  }

  /** compensate_pdet_temp_v5 and compensate_pdet_freq_v5, applied to the requested power. */
  method CompensatePower(b: Band, txPowerCdbm: i16, c: Conditions, d: nat) returns (pwrComp: real)
    requires b.Valid() && d < NUM_DETECTORS
    ensures pwrComp == DetectorPower(b, txPowerCdbm, c, d)
    ensures pwrComp == txPowerCdbm as real / 100.0
                       - (if c.tempComp then b.pdetTempSlope[d] * (c.tempAdc as int - b.calTemp) as real else 0.0)
                       + ShiftAt(b.freqs, Reals(b.pdetShifts[d]), c.freqKhz as real / 1000.0) / 100.0
  {
    hide ShiftAt;
    var pwrOfsTemp := 0.0;
    if c.tempComp {
      pwrOfsTemp := b.pdetTempSlope[d] * c.TempDelta(b.calTemp);
    }
    var shift := CompensateFreq(b.freqs, Reals(b.pdetShifts[d]), c.FreqMhz());
    var pwrOfsFreq := shift / 100.0;
    pwrComp := txPowerCdbm as real / 100.0 - pwrOfsTemp + pwrOfsFreq;
  }

  method ReadDetector(s: Search) returns (adc: u16, hit: bool)
    requires s.Valid()
    ensures hit <==> Covered(s)
    ensures Reads(s, hit, adc)
  {
    hide Reads, Covered, ToUint16;
    var i1, i2;
    i1, i2, hit := SearchTable(s);
    var fraction := (s.power - s.powers[i2]) / (s.powers[i1] - s.powers[i2]);
    adc := ToUint16(Line(s.adcs[i1], s.adcs[i2], fraction));
    FoundReads(s, i2, hit);
  }

  lemma FoundReads(s: Search, i: nat, hit: bool)
    requires s.Valid() && Found(s, i, hit)
    ensures hit <==> Covered(s)
    ensures Reads(s, hit, ToUint16(s.Reading(i)))
  {
  }

  method ChooseFallback(candidates: seq<u16>, range: AdcRange) returns (adc: u16, block: nat)
    requires |candidates| == NUM_DETECTORS
    ensures block < NUM_DETECTORS && FallsBackTo(range, candidates, adc, block)
  {
    hide OffCentre;
    block := 0;
    var smallest := OffCentre(range, candidates[0]);
    var tooLow, tooHigh := true, true;
    var search := NUM_DETECTORS;
    while search > 0
      invariant 0 <= search <= NUM_DETECTORS && 0 <= block < NUM_DETECTORS
      invariant smallest == OffCentre(range, candidates[block])
      invariant tooLow <==> forall e :: search <= e < NUM_DETECTORS ==> candidates[e] <= range.min
      invariant tooHigh <==> forall e :: search <= e < NUM_DETECTORS ==> candidates[e] >= range.max
      invariant forall e :: search <= e < NUM_DETECTORS ==> smallest <= OffCentre(range, candidates[e])
      invariant smallest <= OffCentre(range, candidates[0])
      invariant block != 0 ==> block >= search && smallest < OffCentre(range, candidates[0])
      invariant block == 1 ==> smallest < OffCentre(range, candidates[2])
    {
      var index := search - 1;
      var val := OffCentre(range, candidates[index]);
      tooLow := tooLow && candidates[index] <= range.min;
      tooHigh := tooHigh && candidates[index] >= range.max;
      if val < smallest {
        block := index;
        smallest := val;
      }
      search := search - 1;
    }
    if tooLow {
      block := 0;
      adc := range.min;
    } else if tooHigh {
      block := NUM_DETECTORS - 1;
      adc := range.max;
    } else {
      adc := candidates[block];
    }
  }

  lemma SearchIs(b: Band, range: AdcRange, txPowerCdbm: int, c: Conditions, d: nat)
    requires b.WellCalibrated() && d < NUM_DETECTORS
    ensures DetectorSearch(b, range, txPowerCdbm, c, d)
         == Search(b.coarse, b.pdetAdcs[d], FirstValid(b.coarse, 0), DetectorPower(b, txPowerCdbm, c, d), range)
  {
  }

  /** The search of one detector's table, for the power compensated for that detector. */
  method TryDetector(b: Band, range: AdcRange, txPowerCdbm: i16, c: Conditions, first: nat, d: nat)
    returns (adc: u16, hit: bool)
    requires b.WellCalibrated() && first == FirstValid(b.coarse, 0) && d < NUM_DETECTORS
    ensures hit <==> Covered(DetectorSearch(b, range, txPowerCdbm, c, d))
    ensures Reads(DetectorSearch(b, range, txPowerCdbm, c, d), hit, adc)
  {
    hide DetectorSearch, Reads, Covered, DetectorPower, FirstValid;
    var pwrComp := CompensatePower(b, txPowerCdbm, c, d);
    SearchIs(b, range, txPowerCdbm, c, d);
    adc, hit := ReadDetector(Search(b.coarse, b.pdetAdcs[d], first, pwrComp, range));
  }

  /** The loop over the detectors, from the last down to the first, up to the first hit. */
  method SearchDetectors(b: Band, range: AdcRange, txPowerCdbm: i16, c: Conditions, ghost s: seq<Search>)
    returns (hit: bool, adc: u16, d: nat, candidates: seq<u16>)
    requires b.WellCalibrated() && s == DetectorSearches(b, range, txPowerCdbm, c)
    ensures |candidates| == NUM_DETECTORS && d < NUM_DETECTORS
    ensures hit ==> MissedFrom(s, candidates, d + 1) && Covered(s[d]) && Reads(s[d], true, adc)
    ensures !hit ==> MissedFrom(s, candidates, 0)
  {
    hide DetectorSearches, DetectorSearch, Reads, Covered, ToInt16, ToUint16, Search.Valid, DecreasingFrom,
         FirstNonCleared, FirstValid, MissedFrom;
    hit, adc, d := false, 0, 0;
    var first := GetFirstNonClearedIndex(b.coarse, TABLE_LENGTH - 1);
    FirstIsFirstValid(b.coarse, first);
    candidates := [0, 0, 0];
    // a 16-bit unsigned countdown: it stops when the index has wrapped below zero
    var p: u16 := NUM_DETECTORS - 1;
    Countdown(p);
    NoneMissedYet(s, candidates);
    while ToInt16(p) >= 0
      invariant p < NUM_DETECTORS || p == 0xFFFF
      invariant ToInt16(p) == if p == 0xFFFF then -1 else p
      invariant |candidates| == NUM_DETECTORS
      invariant MissedFrom(s, candidates, ToInt16(p) as int + 1)
      decreases ToInt16(p)
    {
      adc, hit := TryDetector(b, range, txPowerCdbm, c, first, p);
      if hit {
        d := p;
        return;
      }
      OneMoreMissed(s, candidates, p, adc);
      candidates := candidates[p as int := adc];
      Countdown(p);
      p := ToUint16(p as int - 1);
    }
  }

  method PowerToAdc(b: Band, range: AdcRange, calVersion: u8, txPowerCdbm: i16, c: Conditions, channelBefore: Channel)
    returns (adc: u16, channel: Channel)
    requires calVersion == 5 ==> b.WellCalibrated()
    ensures calVersion != 5 ==> adc == 0xFFFF && channel == channelBefore
    ensures calVersion == 5 ==> Selects(DetectorSearches(b, range, txPowerCdbm, c), range, adc, channel)
  {
    if calVersion != 5 {
      return CAL_FUNC_NOT_SUPPORTED, channelBefore;
    }
    ghost var s := DetectorSearches(b, range, txPowerCdbm, c);
    hide DetectorSearches, DetectorSearch, Reads, Covered, Selects, FallBack, FallsBackTo, Search.Valid, DecreasingFrom,
         FirstValid, MissedFrom;
    var hit, candidates, block;
    hit, adc, block, candidates := SearchDetectors(b, range, txPowerCdbm, c, s);
    if hit {
      HitSelects(s, range, candidates, block, adc);
    } else {
      adc, block := ChooseFallback(candidates, range);
      FallBackSelects(s, range, candidates, adc, block);
    }
    channel := PdetIndexToEnum(block, true);
  }

  lemma Countdown(p: u16)
    requires p < NUM_DETECTORS
    ensures ToInt16(p) == p
    ensures ToUint16(p as int - 1) == if p == 0 then 0xFFFF else p - 1
    ensures ToInt16(ToUint16(p as int - 1)) == p as int - 1
  {
  }

  /** Detectors k and up do not cover the power, and have left their readings as candidates. */
  ghost predicate MissedFrom(s: seq<Search>, candidates: seq<u16>, k: int)
    requires |s| == NUM_DETECTORS && forall d :: 0 <= d < NUM_DETECTORS ==> s[d].Valid()
    requires |candidates| == NUM_DETECTORS
  {
    forall d :: 0 <= d < NUM_DETECTORS && k <= d ==> !Covered(s[d]) && Reads(s[d], false, candidates[d])
  }

  lemma NoneMissedYet(s: seq<Search>, candidates: seq<u16>)
    requires |s| == NUM_DETECTORS && forall d :: 0 <= d < NUM_DETECTORS ==> s[d].Valid()
    requires |candidates| == NUM_DETECTORS
    ensures MissedFrom(s, candidates, NUM_DETECTORS)
  {
  }

  lemma OneMoreMissed(s: seq<Search>, candidates: seq<u16>, p: nat, adc: u16)
    requires |s| == NUM_DETECTORS && forall d :: 0 <= d < NUM_DETECTORS ==> s[d].Valid()
    requires |candidates| == NUM_DETECTORS && p < NUM_DETECTORS && MissedFrom(s, candidates, p + 1)
    requires !Covered(s[p]) && Reads(s[p], false, adc)
    ensures MissedFrom(s, candidates[p := adc], p)
  {
    hide Reads, Covered;
  }

  lemma HitSelects(s: seq<Search>, range: AdcRange, candidates: seq<u16>, d: nat, adc: u16)
    requires |s| == NUM_DETECTORS && forall e :: 0 <= e < NUM_DETECTORS ==> s[e].Valid()
    requires |candidates| == NUM_DETECTORS && d < NUM_DETECTORS && MissedFrom(s, candidates, d + 1)
    requires Covered(s[d]) && Reads(s[d], true, adc)
    ensures Selects(s, range, adc, PowerLo(d))
  {
    hide Reads, Covered;
  }

  lemma FallBackSelects(s: seq<Search>, range: AdcRange, candidates: seq<u16>, adc: u16, d: nat)
    requires |s| == NUM_DETECTORS && forall e :: 0 <= e < NUM_DETECTORS ==> s[e].Valid()
    requires |candidates| == NUM_DETECTORS && d < NUM_DETECTORS
    requires MissedFrom(s, candidates, 0)
    requires FallsBackTo(range, candidates, adc, d)
    ensures Selects(s, range, adc, PowerLo(d))
  {
    hide Reads, Covered, FallsBackTo;
    assert FallBack(s, range, candidates, adc, d);
  }

  lemma FirstIsFirstValid(table: seq<real>, first: nat)
    requires FirstValid(table, 0) + 2 <= |table| && first == FirstNonCleared(table, |table| - 1)
    ensures first == FirstValid(table, 0)
  {
  }

  // ---- The contract of power_to_adc leaves no freedom ----

  lemma ReadsUnique(s: Search, hit: bool, adc: u16, adc': u16)
    requires s.Valid() && Reads(s, hit, adc) && Reads(s, hit, adc')
    ensures adc == adc'
  {
    var i :| Found(s, i, hit) && adc == ToUint16(s.Reading(i));
    var i' :| Found(s, i', hit) && adc' == ToUint16(s.Reading(i'));
    FoundUnique(s, i, hit, i', hit);
  }

  lemma FallsBackToUnique(range: AdcRange, candidates: seq<u16>, adc: u16, d: nat, adc': u16, d': nat)
    requires |candidates| == NUM_DETECTORS
    requires FallsBackTo(range, candidates, adc, d) && FallsBackTo(range, candidates, adc', d')
    ensures adc == adc' && d == d'
  {
    hide OffCentre;
  }

  /** The reading and the channel are determined by the tables, the range and the power. */
  lemma SelectsUnique(s: seq<Search>, range: AdcRange, adc: u16, channel: Channel, adc': u16, channel': Channel)
    requires |s| == NUM_DETECTORS && forall d :: 0 <= d < NUM_DETECTORS ==> s[d].Valid()
    requires Selects(s, range, adc, channel) && Selects(s, range, adc', channel')
    ensures adc == adc' && channel == channel'
  {
    hide Reads, FallsBackTo, Covered;
    if exists d :: 0 <= d < NUM_DETECTORS && Covered(s[d]) {
      ReadsUnique(s[channel.lo], true, adc, adc');
    } else {
      var candidates, d :| FallBack(s, range, candidates, adc, d) && channel == PowerLo(d);
      var candidates', d' :| FallBack(s, range, candidates', adc', d') && channel' == PowerLo(d');
      forall e | 0 <= e < NUM_DETECTORS ensures candidates[e] == candidates'[e] {
        ReadsUnique(s[e], false, candidates[e], candidates'[e]);
      }
      assert candidates == candidates';
      FallsBackToUnique(range, candidates, adc, d, adc', d');
    }
  }

  /** When a detector covers the power, the reading lies between the two readings around it. */
  lemma CoveredReading(s: Search, adc: u16)
    requires s.Valid() && Reads(s, true, adc)
    ensures exists i: nat :: 0 < i < |s.adcs| && s.powers[i] <= s.power <= s.powers[i - 1]
              && Min(s.adcs[i - 1], s.adcs[i]) <= adc <= Max(s.adcs[i - 1], s.adcs[i])
              && s.range.Contains(s.adcs[i - 1])
  {
    var i :| Found(s, i, true) && adc == ToUint16(s.Reading(i));
    HitReadingBetween(s, i);
    HitUpperEndValid(s, i);
  }

  /** On one detector with falling readings, a covered power that is larger does not get a smaller ADC target. */
  lemma TargetFollowsPower(s: Search, p: real, low: u16, high: u16)
    requires s.Valid() && ReadingsFall(s) && s.power <= p
    requires Reads(s, true, low) && Reads(s.(power := p), true, high)
    ensures low <= high
  {
    var t := s.(power := p);
    var i :| Found(s, i, true) && low == ToUint16(s.Reading(i));
    var j :| Found(t, j, true) && high == ToUint16(t.Reading(j));
    hide ToUint16, Search.Reading;
    HitReadingBetween(s, i);
    HitReadingBetween(t, j);
    ReadingFollowsPower(s, i, p, j);
  }

  // ---- Power control ----

  /** The calibration parameters that power control reads. */
  datatype PowerParams = PowerParams(
    lower: Band, upper: Band,
    range: AdcRange,
    txScalar: i16,
    dcOffset: seq<i32>,
    errorThreshold: u8,
    loopGainDivisor: u16,
    maxIterations: u8)
  {
    ghost predicate Valid() {
      lower.Valid() && upper.Valid() && |dcOffset| == TABLE_LENGTH
    }

    function BandFor(lowerBand: bool): Band {
      if lowerBand then lower else upper
    }
  }

  datatype PowerConfigs = PowerConfigs(
    txAtten: u8, txScalar: i16, dcOffset: i32,
    adcTarget: u16, boostAdcTarget: u16,
    loopStopThreshold: u16, opErrorThreshold: u16, loopGainDivisor: u16, maxIterations: u32,
    channel: Channel, boostChannel: Channel)

  /** The lesser of the regulatory and the board limit. */
  function MaxPowerCdbm(maxRegulatory: i16): int {
    Min(maxRegulatory, MAX_BOARD_POWER_CDBM)
  }

  /** The boost target: 1.4 dB above the request, in 16 bits, capped at the limit. */
  function BoostPower(txPowerCdbm: i16, maxRegulatory: i16): i16 {
    Min(ToInt16(txPowerCdbm as int + BOOST_RATIO_CDB), MaxPowerCdbm(maxRegulatory))
  }

  /** Without calibration data the attenuator is set from a fixed 31 dBm full scale. */
  function UncalibratedAtten(txPowerCdbm: i16): int {
    Max(0, Min(30, ToInt16(31 - TruncDiv(txPowerCdbm, 100))))
  }

  lemma UncalibratedIs(txPowerCdbm: i16)
    ensures UncalibratedAtten(txPowerCdbm) == Max(0, Min(30, 31 - TruncDiv(txPowerCdbm, 100)))
  {
    TruncDivBounds(txPowerCdbm, 100);
    hide TruncDiv;
    CastLossless(31 - TruncDiv(txPowerCdbm, 100));
  }

  lemma UncalibratedAntitone(low: i16, high: i16)
    requires low <= high
    ensures 0 <= UncalibratedAtten(high) <= UncalibratedAtten(low) <= 30
  {
    hide TruncDiv, UncalibratedAtten;
    UncalibratedIs(low);
    UncalibratedIs(high);
    TruncDivBounds(low, 100);
    TruncDivBounds(high, 100);
  }

  /** One attenuator step for every whole dBm below 31, at most 30 and at least none. */
  lemma UncalibratedSteps(txPowerCdbm: i16)
    ensures 100 <= txPowerCdbm < 3100 ==>
              100 * (31 - UncalibratedAtten(txPowerCdbm)) <= txPowerCdbm < 100 * (32 - UncalibratedAtten(txPowerCdbm))
    ensures txPowerCdbm >= 3100 ==> UncalibratedAtten(txPowerCdbm) == 0
    ensures txPowerCdbm < 200 ==> UncalibratedAtten(txPowerCdbm) == 30
  {
    hide TruncDiv, UncalibratedAtten;
    UncalibratedIs(txPowerCdbm);
    TruncDivBounds(txPowerCdbm, 100);
  }

  /** The boost target never exceeds either limit, whatever the request. */
  lemma BoostWithinLimits(txPowerCdbm: i16, maxRegulatory: i16)
    ensures BoostPower(txPowerCdbm, maxRegulatory) <= maxRegulatory
    ensures BoostPower(txPowerCdbm, maxRegulatory) <= 3000
  {
  }

  /** It is 140 cdBm above the request or the lower limit, unless the 16-bit sum wraps: then the sum is negative. */
  lemma BoostExactly(txPowerCdbm: i16, maxRegulatory: i16)
    ensures txPowerCdbm <= 0x7FFF - 140 ==>
              BoostPower(txPowerCdbm, maxRegulatory) == Min(txPowerCdbm as int + 140, Min(maxRegulatory, 3000))
    ensures txPowerCdbm > 0x7FFF - 140 ==>
              BoostPower(txPowerCdbm, maxRegulatory) == Min(txPowerCdbm as int + 140 - 0x1_0000, maxRegulatory)
  {
  }

  /** Boosting a request that is itself within the limit never raises the attenuation. */
  lemma BoostNeverRaisesAttenuation(b: Band, c: Conditions, txPowerCdbm: i16, maxRegulatory: i16)
    requires b.Valid() && DecreasingFrom(b.coarse, FirstValid(b.coarse, 0))
    requires txPowerCdbm <= MaxPowerCdbm(maxRegulatory)
    ensures txPowerCdbm <= BoostPower(txPowerCdbm, maxRegulatory)
    ensures Chosen(b.coarse, Target(b, BoostPower(txPowerCdbm, maxRegulatory), c))
         <= Chosen(b.coarse, Target(b, txPowerCdbm, c))
  {
    CastLossless(txPowerCdbm as int + BOOST_RATIO_CDB);
    MorePowerLessAttenuation(b, c, txPowerCdbm, BoostPower(txPowerCdbm, maxRegulatory));
  }

  function AdcErrorThreshold(p: PowerParams, calVersion: u8): u16 {
    if calVersion == 5 then p.errorThreshold else 5
  }

  function LoopGain(p: PowerParams, calVersion: u8): u16 {
    if calVersion == 5 then p.loopGainDivisor else 400
  }

  function MaxIterations(p: PowerParams, calVersion: u8): u32 {
    if calVersion == 5 then p.maxIterations else 10
  }

  method GetPowerControlParams(p: PowerParams, pastEnd: real, calVersion: u8, txPowerCdbm: i16, withBoost: bool,
                               c: Conditions, lowerBand: bool, maxRegulatory: i16)
    returns (r: PowerConfigs)
    requires calVersion != 0xFF ==> p.Valid()
    requires calVersion == 5 ==> p.BandFor(lowerBand).WellCalibrated()
    ensures r.txAtten <= 30
    ensures calVersion == 0xFF ==>
              r == PowerConfigs(UncalibratedAtten(txPowerCdbm), 1152, 0, 0, 0, 5, 30, 400, 10, ChannelNone, ChannelNone)
    ensures calVersion != 0xFF ==>
              var b := if lowerBand then p.lower else p.upper;
              var boost := BoostPower(txPowerCdbm, maxRegulatory);
              && r.txAtten == Chosen(b.coarse, Target(b, if withBoost then boost else txPowerCdbm, c))
              && r.dcOffset == p.dcOffset[r.txAtten] && r.txScalar == p.txScalar
              && r.loopStopThreshold == (if calVersion == 5 then p.errorThreshold else 5)
              && r.opErrorThreshold == 6 * r.loopStopThreshold
              && r.loopGainDivisor == (if calVersion == 5 then p.loopGainDivisor else 400)
              && r.maxIterations == (if calVersion == 5 then p.maxIterations else 10)
              && (calVersion == 5 ==>
                    && Selects(DetectorSearches(b, p.range, txPowerCdbm, c), p.range, r.adcTarget, r.channel)
                    && (withBoost && boost != txPowerCdbm ==>
                          Selects(DetectorSearches(b, p.range, boost, c), p.range, r.boostAdcTarget, r.boostChannel)))
              && (calVersion != 5 ==>
                    r.adcTarget == CAL_FUNC_NOT_SUPPORTED && r.channel == r.boostChannel == ChannelNone)
              && (!withBoost || boost == txPowerCdbm ==> r.boostAdcTarget == 0 && r.boostChannel == ChannelNone)
  {
    hide Selects, Chosen, Target;
    var threshold := AdcErrorThreshold(p, calVersion);
    if calVersion == 0xFF {
      var txAtten: i16 := ToInt16(31 - TruncDiv(txPowerCdbm, 100));
      if txAtten < 0 {
        txAtten := 0;
      } else if txAtten > 30 {
        txAtten := 30;
      }
      return PowerConfigs(txAtten, 1152, 0, 0, 0, threshold, 6 * threshold,
                          LoopGain(p, calVersion), MaxIterations(p, calVersion), ChannelNone, ChannelNone);
    }
    var b := p.BandFor(lowerBand);
    var boost: i16 := ToInt16(txPowerCdbm as int + BOOST_RATIO_CDB);
    var maxPower := MaxPowerCdbm(maxRegulatory);
    if boost > maxPower {
      boost := maxPower;
    }
    var txAtten := ChooseCoarseAtten(b, pastEnd, if withBoost then boost else txPowerCdbm, c);
    var adcTarget, channel := PowerToAdc(b, p.range, calVersion, txPowerCdbm, c, ChannelNone);
    var boostAdcTarget: u16, boostChannel := 0, ChannelNone;
    if withBoost && boost != txPowerCdbm {
      boostAdcTarget, boostChannel := PowerToAdc(b, p.range, calVersion, boost, c, ChannelNone);
    }
    r := PowerConfigs(txAtten, p.txScalar, p.dcOffset[txAtten], adcTarget, boostAdcTarget, threshold, 6 * threshold,
                      LoopGain(p, calVersion), MaxIterations(p, calVersion), channel, boostChannel);
  }
}
