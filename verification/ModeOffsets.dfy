/**
  The per-mode RSSI offsets: the first-match join of the calibration modes with the flash
  tables and the digital corrections, the arrays it fills, and the run-time look-up.
 */
module ModeOffsets {
  import opened CArithmetic
  import opened Interpolation

  const NUM_RX_MODES := 19
  const NUM_DRM_CAL_MODES := 2
  const NUM_NON_DRM_CAL_MODES := 3
  const FLASH_MODES := 32

  /** The modes recorded in flash during calibration, and the value measured for each. */
  datatype Flash = Flash(rfModes: seq<u16>, rfModeLut: seq<i16>) {
    predicate Valid() {
      |rfModes| == |rfModeLut| == FLASH_MODES
    }
  }

  /** struct RssiCompensationLut. */
  datatype Lut = Lut(
    rfModes: seq<u16>,
    rfModeToRxMode: seq<u16>,
    rxModesBlf: seq<u16>,
    drmCalModes: seq<CalMode>,
    nonDrmCalModes: seq<CalMode>,
    rxModeDigitalCorrection: seq<i16>)
  {
    predicate Valid() {
      && |rfModes| == |rfModeToRxMode| < 0x1_0000
      && |rxModesBlf| == |rxModeDigitalCorrection| == NUM_RX_MODES
      && |drmCalModes| == NUM_DRM_CAL_MODES && |nonDrmCalModes| == NUM_NON_DRM_CAL_MODES
      && forall k :: 0 <= k < |rfModeToRxMode| ==> rfModeToRxMode[k] < NUM_RX_MODES
    }

    /** The digital correction of the k-th supported mode. */
    function Digital(k: nat): i16
      requires Valid() && k < |rfModes|
    {
      rxModeDigitalCorrection[rfModeToRxMode[k]]
    }
  }

  /** The tables of one part: its flash, the compensation look-up table, and two mode functions. */
  datatype Tables = Tables(flash: Flash, lut: Lut, convert: u16 -> u16, isDrm: u16 -> bool) {
    predicate Valid() {
      flash.Valid() && lut.Valid()
    }

    /** The first flash entry at or after j that, once a legacy mode is converted, holds the mode. */
    function FirstInFlash(mode: u16, j: nat): (r: nat)
      requires Valid() && j <= FLASH_MODES
      ensures j <= r <= FLASH_MODES
      ensures forall i :: j <= i < r ==> convert(flash.rfModes[i]) != mode
      ensures r < FLASH_MODES ==> convert(flash.rfModes[r]) == mode
      decreases FLASH_MODES - j
    {
      if j == FLASH_MODES || convert(flash.rfModes[j]) == mode then j else FirstInFlash(mode, j + 1)
    }

    /** The first supported mode at or after k that is the given mode. */
    function FirstMode(mode: u16, k: nat): (r: nat)
      requires Valid() && k <= |lut.rfModes|
      ensures k <= r <= |lut.rfModes|
      ensures forall i :: k <= i < r ==> lut.rfModes[i] != mode
      ensures r < |lut.rfModes| ==> lut.rfModes[r] == mode
      decreases |lut.rfModes| - k
    {
      if k == |lut.rfModes| || lut.rfModes[k] == mode then k else FirstMode(mode, k + 1)
    }

    /** The mode is in flash and is supported, so an analog offset can be derived for it. */
    predicate Found(mode: u16)
      requires Valid()
    {
      FirstInFlash(mode, 0) < FLASH_MODES && FirstMode(mode, 0) < |lut.rfModes|
    }

    /** What was measured for a mode during calibration: its first flash entry. */
    function Measured(mode: u16): int
      requires Valid() && Found(mode)
    {
      flash.rfModeLut[FirstInFlash(mode, 0)]
    }

    /** What the join stores for a mode: measurement less digital correction, or what was there before. */
    function JoinedOffset(mode: u16, before: i16): i16
      requires Valid()
    {
      if Found(mode) then ToInt16(Measured(mode) - lut.Digital(FirstMode(mode, 0))) else before
    }
  }

  /** The offsets after the join of a list of calibration modes. */
  ghost predicate Joined(t: Tables, modes: seq<CalMode>, before: seq<i16>, after: seq<i16>)
    requires t.Valid()
  {
    && |before| == |after| == |modes|
    && forall i :: 0 <= i < |modes| ==> after[i] == t.JoinedOffset(modes[i].modeId, before[i])
  }

  ghost predicate AnyFound(t: Tables, modes: seq<CalMode>)
    requires t.Valid()
  {
    exists mode :: mode in modes && t.Found(mode.modeId)
  }

  function Blfs(modes: seq<CalMode>): (r: seq<u16>)
    ensures |r| == |modes|
  {
    seq(|modes|, i requires 0 <= i < |modes| => modes[i].blf)
  }

  /** The two inner loops: the flash entry of a mode, and then its digital correction. */
  method DeriveAnalogOffset(t: Tables, mode: u16, before: i16) returns (found: bool, offset: i16)
    requires t.Valid()
    ensures found <==> t.Found(mode)
    ensures offset == t.JoinedOffset(mode, before)
    ensures !found ==> offset == before
    ensures found ==>
              var j, k := t.FirstInFlash(mode, 0), t.FirstMode(mode, 0);
              offset == ToInt16(t.flash.rfModeLut[j] as int - t.lut.rxModeDigitalCorrection[t.lut.rfModeToRxMode[k]])
  {
    found, offset := false, before;
    var j := 0;
    while j < FLASH_MODES
      invariant 0 <= j <= FLASH_MODES && !found && offset == before
      invariant t.FirstInFlash(mode, 0) == t.FirstInFlash(mode, j)
    {
      var rfModeId := t.convert(t.flash.rfModes[j]);
      if rfModeId == mode {
        var modeCalibrationOffset: int := t.flash.rfModeLut[j];
        var k := 0;
        while k < |t.lut.rfModes|
          invariant 0 <= k <= |t.lut.rfModes| && !found && offset == before
          invariant t.FirstMode(mode, 0) == t.FirstMode(mode, k)
        {
          if rfModeId == t.lut.rfModes[k] {
            var rxModeIdx := t.lut.rfModeToRxMode[k];
            var modeDigitalCorrection: int := t.lut.rxModeDigitalCorrection[rxModeIdx];
            offset := ToInt16(modeCalibrationOffset - modeDigitalCorrection);
            found := true;
            break;
          }
          k := k + 1;
        }
        break;
      }
      j := j + 1;
    }
  }

  method FillCalibrationOffsets(t: Tables, modes: seq<CalMode>, analogOffsets: array<i16>, blfFreq: array<u16>)
    returns (calModeFound: bool)
    requires t.Valid()
    requires analogOffsets.Length == blfFreq.Length == |modes|
    requires analogOffsets as object != blfFreq as object
    modifies analogOffsets, blfFreq
    ensures Joined(t, modes, old(analogOffsets[..]), analogOffsets[..])
    ensures blfFreq[..] == Blfs(modes)
    ensures calModeFound <==> AnyFound(t, modes)
  {
    hide Tables.JoinedOffset, Tables.Found, Tables.FirstInFlash, Tables.FirstMode, Tables.Valid;
    calModeFound := false;
    ghost var before := analogOffsets[..];
    var i := 0;
    while i < |modes|
      invariant 0 <= i <= |modes|
      invariant forall p :: 0 <= p < i ==> blfFreq[p] == modes[p].blf
      invariant forall p :: 0 <= p < i ==> analogOffsets[p] == t.JoinedOffset(modes[p].modeId, before[p])
      invariant forall p :: i <= p < |modes| ==> analogOffsets[p] == before[p]
      invariant calModeFound <==> AnyFound(t, modes[..i])
    {
      blfFreq[i] := modes[i].blf;
      var found, offset := DeriveAnalogOffset(t, modes[i].modeId, analogOffsets[i]);
      if found {
        analogOffsets[i] := offset;
        calModeFound := true;
      }
      assert modes[..i + 1] == modes[..i] + [modes[i]];
      i := i + 1;
    }
    assert modes[..|modes|] == modes;
  }

  // ---- The run-time look-up ----

  /** The four arrays that init_analog_offsets fills and the run-time look-up reads. */
  datatype Offsets = Offsets(drm: seq<i16>, drmFreq: seq<u16>, nonDrm: seq<i16>, nonDrmFreq: seq<u16>) {
    predicate Valid() {
      && |drm| == |drmFreq| == NUM_DRM_CAL_MODES
      && |nonDrm| == |nonDrmFreq| == NUM_NON_DRM_CAL_MODES
    }
  }

  /** The arrays are what a successful initialisation leaves. */
  ghost predicate Initialised(t: Tables, before: Offsets, after: Offsets)
    requires t.Valid()
  {
    && Joined(t, t.lut.drmCalModes, before.drm, after.drm)
    && Joined(t, t.lut.nonDrmCalModes, before.nonDrm, after.nonDrm)
    && after.drmFreq == Blfs(t.lut.drmCalModes)
    && after.nonDrmFreq == Blfs(t.lut.nonDrmCalModes)
  }

  /** The magnitude of a baseband frequency; the most negative value is its own negation. */
  function Magnitude(freq: int): i16
    requires FitsInt16(freq)
  {
    if freq < 0 then ToInt16(-freq) else freq
  }

  function BasebandOffset(o: Offsets, freq: i16, drm: bool): i16
    requires o.Valid()
  {
    ToInt16(if drm then Interpolated(o.drmFreq, o.drm, freq) else Interpolated(o.nonDrmFreq, o.nonDrm, freq))
  }

  function ModeRssiOffset(o: Offsets, t: Tables, mode: u16, freq: i16): i16
    requires o.Valid() && t.Valid()
  {
    var k := t.FirstMode(mode, 0);
    if k == |t.lut.rfModes| then 0
    else ToInt16(BasebandOffset(o, Magnitude(freq), t.isDrm(mode)) as int + t.lut.Digital(k))
  }

  /** The link frequency of a mode's receive mode, or zero for an unsupported mode. */
  function ModeFreq(t: Tables, mode: u16): u16
    requires t.Valid()
  {
    var k := t.FirstMode(mode, 0);
    if k == |t.lut.rfModes| then 0 else t.lut.rxModesBlf[t.lut.rfModeToRxMode[k]]
  }

  /** What initialisation checks of a list of calibration modes. */
  ghost predicate SortedByBlf(modes: seq<CalMode>) {
    forall p, q :: 0 <= p < q < |modes| ==> modes[p].blf <= modes[q].blf
  }

  ghost predicate StrictlyIncreasing(modes: seq<CalMode>) {
    forall p, q :: 0 <= p < q < |modes| ==> modes[p].blf < modes[q].blf
  }

  function CalModes(t: Tables, drm: bool): seq<CalMode> {
    if drm then t.lut.drmCalModes else t.lut.nonDrmCalModes
  }

  /** The i-th calibration mode of a filter, if its tables are consistent with the run-time tables. */
  ghost predicate Calibrated(t: Tables, drm: bool, i: nat, mode: u16)
    requires t.Valid()
  {
    && SortedByBlf(CalModes(t, drm)) && i < |CalModes(t, drm)| && CalModes(t, drm)[i].modeId == mode
    && t.Found(mode) && t.isDrm(mode) == drm
    && CalModes(t, drm)[i].blf == ModeFreq(t, mode) < 0x8000
  }

  /** The calibration mode whose offset the look-up returns at the frequency of the i-th one. */
  function ReachedMode(modes: seq<CalMode>, i: nat): (r: nat)
    requires |modes| >= 2 && i < |modes|
  {
    ReachedNode(Blfs(modes), i)
  }

  /** At a calibration mode's own frequency the interpolation returns the offset stored for the reached mode. */
  lemma NodeOffset(modes: seq<CalMode>, y: seq<i16>, i: nat)
    requires SortedByBlf(modes) && i < |modes| == |y| && |modes| >= 2
    ensures ReachedMode(modes, i) < |modes| && modes[ReachedMode(modes, i)].blf == modes[i].blf
    ensures ToInt16(Interpolated(Blfs(modes), y, modes[i].blf)) == y[ReachedMode(modes, i)]
    ensures StrictlyIncreasing(modes) ==> ReachedMode(modes, i) == i
  {
    ReachedNodeReturned(Blfs(modes), y, i);
    CastLossless(y[ReachedMode(modes, i)]);
    if StrictlyIncreasing(modes) {
      ExactAtNodes(Blfs(modes), y, i);
    }
  }

  /** What the join stores for the r-th calibration mode of a filter. */
  function StoredFor(t: Tables, before: Offsets, drm: bool, r: nat): i16
    requires t.Valid() && before.Valid() && r < |CalModes(t, drm)|
  {
    t.JoinedOffset(CalModes(t, drm)[r].modeId, if drm then before.drm[r] else before.nonDrm[r])
  }

  /** After initialisation the baseband offset at a calibrated mode's frequency is that joined for the reached mode. */
  lemma StoredOffset(t: Tables, before: Offsets, o: Offsets, drm: bool, i: nat, mode: u16)
    requires t.Valid() && before.Valid() && o.Valid()
    requires Initialised(t, before, o)
    requires Calibrated(t, drm, i, mode)
    ensures ReachedMode(CalModes(t, drm), i) < |CalModes(t, drm)|
    ensures BasebandOffset(o, ModeFreq(t, mode), drm)
         == StoredFor(t, before, drm, ReachedMode(CalModes(t, drm), i))
  {
    NodeOffset(CalModes(t, drm), if drm then o.drm else o.nonDrm, i);
  }

  /** The offset of a supported mode at a frequency that does not change under the 16-bit cast. */
  lemma SupportedModeOffset(o: Offsets, t: Tables, mode: u16, freq: u16)
    requires o.Valid() && t.Valid() && freq < 0x8000
    requires t.FirstMode(mode, 0) < |t.lut.rfModes|
    ensures ModeRssiOffset(o, t, mode, ToInt16(freq))
         == ToInt16(BasebandOffset(o, freq, t.isDrm(mode)) as int + t.lut.Digital(t.FirstMode(mode, 0)))
  {
  }

  /**
    A calibrated mode gets back, at run time, exactly the value that was measured for it, the
    first matching flash entry, if and only if the join has stored the same offset for the
    mode the look-up reaches.  The join, the interpolation node and the digital correction
    cancel even where the 16-bit sums wrap.
   */
  lemma CalibratedModeReproducedExactlyWhen(t: Tables, before: Offsets, o: Offsets, drm: bool, i: nat, mode: u16)
    requires t.Valid() && before.Valid() && o.Valid()
    requires Initialised(t, before, o)
    requires Calibrated(t, drm, i, mode)
    ensures ReachedMode(CalModes(t, drm), i) < |CalModes(t, drm)|
    ensures ModeRssiOffset(o, t, mode, ToInt16(ModeFreq(t, mode))) == t.Measured(mode) <==>
            StoredFor(t, before, drm, ReachedMode(CalModes(t, drm), i)) == StoredFor(t, before, drm, i)
  {
    hide Tables.FirstInFlash, Tables.FirstMode, BasebandOffset, ModeRssiOffset, ModeFreq;
    StoredOffset(t, before, o, drm, i, mode);
    SupportedModeOffset(o, t, mode, ModeFreq(t, mode));
    var stored := StoredFor(t, before, drm, ReachedMode(CalModes(t, drm), i));
    SumDecides(stored, t.Measured(mode), t.lut.Digital(t.FirstMode(mode, 0)));
  }

  lemma SumDecides(stored: i16, measured: i16, digital: int)
    ensures ToInt16(stored + digital) == measured <==> stored == ToInt16(measured - digital)
  {
  }

  /** With frequencies that differ, the reached mode is the mode itself and its measurement always comes back. */
  lemma CalibratedModeReproduced(t: Tables, before: Offsets, o: Offsets, drm: bool, i: nat, mode: u16)
    requires t.Valid() && before.Valid() && o.Valid()
    requires Initialised(t, before, o)
    requires Calibrated(t, drm, i, mode) && StrictlyIncreasing(CalModes(t, drm))
    ensures ModeRssiOffset(o, t, mode, ToInt16(ModeFreq(t, mode))) == t.Measured(mode)
  {
    hide ModeRssiOffset, Initialised;
    CalibratedModeReproducedExactlyWhen(t, before, o, drm, i, mode);
    NodeOffset(CalModes(t, drm), if drm then before.drm else before.nonDrm, i);
  }

  /** Two modes of one frequency: at the first one's own frequency the second one's offset is returned. */
  lemma EqualFrequenciesHideTheFirst(y: seq<i16>)
    requires |y| == 2
    ensures Interpolated([320, 320], y, 320) == y[1]
  {
  }

  /** k is the first supported mode with the given identifier. */
  ghost predicate IsMode(t: Tables, mode: u16, k: nat)
    requires t.Valid()
  {
    k < |t.lut.rfModes| && t.lut.rfModes[k] == mode && forall j :: 0 <= j < k ==> t.lut.rfModes[j] != mode
  }

  lemma IsModeIsFirst(t: Tables, mode: u16, k: nat)
    requires t.Valid() && IsMode(t, mode, k)
    ensures t.FirstMode(mode, 0) == k
  {
  }

  /** The run-time offset of a supported mode is the interpolated offset plus its entry in the correction table. */
  lemma CorrectionIsAdded(o: Offsets, t: Tables, mode: u16, k: nat, freq: i16)
    requires o.Valid() && t.Valid() && IsMode(t, mode, k) && 0 <= freq
    ensures ModeRssiOffset(o, t, mode, freq) ==
            ToInt16(ToInt16(if t.isDrm(mode) then Interpolated(o.drmFreq, o.drm, freq)
                            else Interpolated(o.nonDrmFreq, o.nonDrm, freq)) as int
                    + t.lut.rxModeDigitalCorrection[t.lut.rfModeToRxMode[k]])
  {
    hide Interpolated, ToInt16;
    IsModeIsFirst(t, mode, k);
  }

  /**
    Two supported modes of one filter differ, at one frequency and modulo 2^16, by the
    difference of their entries in the correction table.
   */
  lemma CorrectionsDiffer(o: Offsets, t: Tables, a: u16, i: nat, b: u16, j: nat, freq: i16)
    requires o.Valid() && t.Valid() && IsMode(t, a, i) && IsMode(t, b, j)
    requires 0 <= freq && t.isDrm(a) == t.isDrm(b)
    ensures ToInt16(ModeRssiOffset(o, t, a, freq) as int - ModeRssiOffset(o, t, b, freq)) ==
            ToInt16(t.lut.rxModeDigitalCorrection[t.lut.rfModeToRxMode[i]] as int
                    - t.lut.rxModeDigitalCorrection[t.lut.rfModeToRxMode[j]])
  {
    CorrectionIsAdded(o, t, a, i, freq);
    CorrectionIsAdded(o, t, b, j, freq);
    var base := BasebandOffset(o, freq, t.isDrm(a));
    hide ToInt16, ModeRssiOffset;
    CastDifference(base as int + t.lut.rxModeDigitalCorrection[t.lut.rfModeToRxMode[i]],
                   base as int + t.lut.rxModeDigitalCorrection[t.lut.rfModeToRxMode[j]]);
  }

  /** An unsupported mode has no correction and no frequency. */
  lemma UnsupportedMode(o: Offsets, t: Tables, mode: u16, freq: i16)
    requires o.Valid() && t.Valid() && mode !in t.lut.rfModes
    ensures ModeRssiOffset(o, t, mode, freq) == 0 && ModeFreq(t, mode) == 0
  {
    assert t.FirstMode(mode, 0) == |t.lut.rfModes|;
  }

  /** Looking a mode up at a frequency or at its negative gives the same offset. */
  lemma OffsetIgnoresSign(o: Offsets, t: Tables, mode: u16, freq: int)
    requires o.Valid() && t.Valid() && -0x8000 < freq < 0x8000
    ensures ModeRssiOffset(o, t, mode, -freq) == ModeRssiOffset(o, t, mode, freq)
  {
    CastLossless(-freq);
    CastLossless(freq);
    assert Magnitude(freq) == Magnitude(-freq);
  }
}
