/** The statics of calibration.c, filled once at initialisation and read by every RSSI conversion. */
module Calibration {
  import opened CArithmetic
  import opened Interpolation
  import opened ModeOffsets
  import opened RssiConversion
  import opened Wrappers

  /** Initialising a second time from the same tables changes nothing. */
  lemma InitialisingTwice(t: Tables, a: Offsets, b: Offsets, c: Offsets)
    requires t.Valid() && Initialised(t, a, b) && Initialised(t, b, c)
    ensures b == c
  {
  }

  lemma NoneFoundNothingJoined(t: Tables, modes: seq<CalMode>, before: seq<i16>, after: seq<i16>)
    requires t.Valid() && Joined(t, modes, before, after) && !AnyFound(t, modes)
    ensures after == before
  {
  }

  class RssiCalibration {
    var calVersion: u8
    var params: RssiParams
    var flash: Flash
    const convert: u16 -> u16
    var rssiComp: Option<Lut>
    var rxBasebandFilter: Option<u16 -> bool>

    const drmAnalogOffset: array<i16>
    const drmAnalogFreqKhz: array<u16>
    const nonDrmAnalogOffset: array<i16>
    const nonDrmAnalogFreqKhz: array<u16>

    ghost predicate Valid()
      reads this
    {
      && params.Valid() && flash.Valid() && (rssiComp.Some? ==> rssiComp.value.Valid())
      && drmAnalogOffset.Length == drmAnalogFreqKhz.Length == NUM_DRM_CAL_MODES
      && nonDrmAnalogOffset.Length == nonDrmAnalogFreqKhz.Length == NUM_NON_DRM_CAL_MODES
      && drmAnalogOffset != nonDrmAnalogOffset && drmAnalogFreqKhz != nonDrmAnalogFreqKhz
      && drmAnalogOffset as object != drmAnalogFreqKhz as object
      && drmAnalogOffset as object != nonDrmAnalogFreqKhz as object
      && nonDrmAnalogOffset as object != drmAnalogFreqKhz as object
      && nonDrmAnalogOffset as object != nonDrmAnalogFreqKhz as object
    }

    ghost function Contents(): (o: Offsets)
      reads this, drmAnalogOffset, drmAnalogFreqKhz, nonDrmAnalogOffset, nonDrmAnalogFreqKhz
      requires Valid()
      ensures o.Valid()
    {
      Offsets(drmAnalogOffset[..], drmAnalogFreqKhz[..], nonDrmAnalogOffset[..], nonDrmAnalogFreqKhz[..])
    }

    function TablesWith(isDrm: u16 -> bool): Tables
      reads this
      requires rssiComp.Some?
    {
      Tables(flash, rssiComp.value, convert, isDrm)
    }

    constructor (params: RssiParams, flash: Flash, convert: u16 -> u16, lut: Lut, isDrm: u16 -> bool, calVersion: u8)
      requires params.Valid() && flash.Valid() && lut.Valid()
      ensures Valid() && this.params == params && this.flash == flash && this.convert == convert
      ensures rssiComp == Some(lut) && rxBasebandFilter == Some(isDrm) && this.calVersion == calVersion
      ensures Contents() == Offsets([0, 0], [0, 0], [0, 0, 0], [0, 0, 0])
      ensures fresh(drmAnalogOffset) && fresh(drmAnalogFreqKhz)
      ensures fresh(nonDrmAnalogOffset) && fresh(nonDrmAnalogFreqKhz)
    {
      this.params, this.flash, this.convert, this.calVersion := params, flash, convert, calVersion;
      rssiComp, rxBasebandFilter := Some(lut), Some(isDrm);
      drmAnalogOffset := new i16[NUM_DRM_CAL_MODES](_ => 0);
      drmAnalogFreqKhz := new u16[NUM_DRM_CAL_MODES](_ => 0);
      nonDrmAnalogOffset := new i16[NUM_NON_DRM_CAL_MODES](_ => 0);
      nonDrmAnalogFreqKhz := new u16[NUM_NON_DRM_CAL_MODES](_ => 0);
    }

    /** init_analog_offsets: zero exactly when both mode lists are sorted and each has a mode that can be calibrated. */
    method InitAnalogOffsets(isDrm: u16 -> bool) returns (r: int)
      requires Valid() && rssiComp.Some?
      modifies drmAnalogOffset, drmAnalogFreqKhz, nonDrmAnalogOffset, nonDrmAnalogFreqKhz
      ensures Valid() && (r == 0 || r == -1)
      ensures var t := TablesWith(isDrm);
              r == 0 <==> SortedByBlf(t.lut.drmCalModes) && SortedByBlf(t.lut.nonDrmCalModes)
                          && AnyFound(t, t.lut.drmCalModes) && AnyFound(t, t.lut.nonDrmCalModes)
      ensures var t := TablesWith(isDrm);
              if !(SortedByBlf(t.lut.drmCalModes) && SortedByBlf(t.lut.nonDrmCalModes)) then
                Contents() == old(Contents())
              else if !AnyFound(t, t.lut.drmCalModes) then
                Contents() == old(Contents()).(drmFreq := Blfs(t.lut.drmCalModes))
              else
                Initialised(t, old(Contents()), Contents())
    {
      var t := TablesWith(isDrm);
      var drmSorted := CheckSortedByBlf(t.lut.drmCalModes);
      if drmSorted != 0 {
        return -1;
      }
      var nonDrmSorted := CheckSortedByBlf(t.lut.nonDrmCalModes);
      if nonDrmSorted != 0 {
        return -1;
      }
      hide Joined, AnyFound, Blfs;
      var drmCalFound := FillCalibrationOffsets(t, t.lut.drmCalModes, drmAnalogOffset, drmAnalogFreqKhz);
      if !drmCalFound {
        NoneFoundNothingJoined(t, t.lut.drmCalModes, old(drmAnalogOffset[..]), drmAnalogOffset[..]);
        return -1;
      }
      var nonDrmCalFound := FillCalibrationOffsets(t, t.lut.nonDrmCalModes, nonDrmAnalogOffset, nonDrmAnalogFreqKhz);
      if !nonDrmCalFound {
        return -1;
      }
      return 0;
    }

    method GetAnalogBasebandFreqOffset(freq: i16, drm: bool) returns (r: i16)
      requires Valid()
      ensures r == BasebandOffset(Contents(), freq, drm)
    {
      if drm {
        r := Interpolate(drmAnalogFreqKhz[..], drmAnalogOffset[..], freq);
      } else {
        r := Interpolate(nonDrmAnalogFreqKhz[..], nonDrmAnalogOffset[..], freq);
      }
      CastLossless(r);
    }

    /** The stored offset of a mode, or the error value -1 when a table is missing. */
    ghost function ModeOffset(mode: u16, freq: i16): i16
      reads this, drmAnalogOffset, drmAnalogFreqKhz, nonDrmAnalogOffset, nonDrmAnalogFreqKhz
      requires Valid()
    {
      if rssiComp.None? || rxBasebandFilter.None? then -1
      else ModeRssiOffset(Contents(), TablesWith(rxBasebandFilter.value), mode, freq)
    }

    method GetModeRssiOffset(mode: u16, basebandFreq: i16) returns (modeOffset: i16)
      requires Valid()
      ensures modeOffset == ModeOffset(mode, basebandFreq)
      ensures rssiComp.None? || rxBasebandFilter.None? ==> modeOffset == -1
    {
      modeOffset := 0;
      if rssiComp.None? || rxBasebandFilter.None? {
        return -1;
      }
      ghost var t := TablesWith(rxBasebandFilter.value);
      var lut := rssiComp.value;
      var freq := basebandFreq;
      if freq < 0 {
        freq := ToInt16(basebandFreq as int * -1);
      }
      var idx := 0;
      while idx < |lut.rfModes|
        invariant 0 <= idx <= |lut.rfModes| && modeOffset == 0
        invariant t.FirstMode(mode, 0) == t.FirstMode(mode, idx)
      {
        if mode == lut.rfModes[idx] {
          var rxModeIdx := lut.rfModeToRxMode[idx];
          var isDrm := rxBasebandFilter.value(mode);
          var analogOffset := GetAnalogBasebandFreqOffset(freq, isDrm);
          var digitalOffset := lut.rxModeDigitalCorrection[rxModeIdx];
          modeOffset := ToInt16(analogOffset as int + digitalOffset);
          break;
        }
        idx := idx + 1;
      }
    }

    /** The link frequency of a mode, zero when the tables are missing or do not list it. */
    ghost function BasebandFreq(mode: u16): u16
      reads this
      requires Valid()
    {
      if rssiComp.None? then 0 else ModeFreq(TablesWith(_ => false), mode)
    }

    method GetRfModeBasebandFreqKhz(mode: u16) returns (freq: u16)
      requires Valid()
      ensures freq == BasebandFreq(mode)
      ensures rssiComp.None? || mode !in rssiComp.value.rfModes ==> freq == 0
      ensures rssiComp.Some? ==>
                forall k: nat :: IsMode(TablesWith(_ => false), mode, k) ==>
                  freq == rssiComp.value.rxModesBlf[rssiComp.value.rfModeToRxMode[k]]
    {
      if rssiComp.None? {
        return 0;
      }
      ghost var t := TablesWith(_ => false);
      var lut := rssiComp.value;
      var idx := 0;
      while idx < |lut.rfModes|
        invariant 0 <= idx <= |lut.rfModes|
        invariant t.FirstMode(mode, 0) == t.FirstMode(mode, idx)
      {
        if mode == lut.rfModes[idx] {
          return lut.rxModesBlf[lut.rfModeToRxMode[idx]];
        }
        idx := idx + 1;
      }
      return 0;
    }

    method GetCompensatedRssi(raw: u16, mode: u16, rx: RxSettings, tempAdc: u16) returns (cdbm: i16)
      requires Valid() && rx.Valid()
      ensures cdbm == CompensatedRssi(params, calVersion, raw, GainOffset(params, rx),
                                      ModeOffset(mode, ToInt16(BasebandFreq(mode))), TempOffset(params, tempAdc))
    {
      hide GainOffset, TempOffset, ToInt16, ToUint16, CdbmOf;
      var freq := GetRfModeBasebandFreqKhz(mode);
      if calVersion != 5 {
        return ToInt16(raw);
      }
      var gainOffset := GainOffset(params, rx);
      var modeOffset := GetModeRssiOffset(mode, ToInt16(freq));
      var tempOffset := TempOffset(params, tempAdc);
      var rssiLog2Compensated: i32 := raw as int - gainOffset - modeOffset - tempOffset;
      cdbm := Log2ToCdbm(params, ToUint16(rssiLog2Compensated));
    }

    method GetRssiLog2(cdbm: i16, mode: u16, rx: RxSettings, tempAdc: u16) returns (log2: u16)
      requires Valid() && rx.Valid()
      ensures log2 == RssiLog2(params, calVersion, cdbm, GainOffset(params, rx),
                               ModeOffset(mode, ToInt16(BasebandFreq(mode))), TempOffset(params, tempAdc))
    {
      hide GainOffset, TempOffset, ToInt16, ToUint16, Log2Of;
      var freq := GetRfModeBasebandFreqKhz(mode);
      if calVersion != 5 {
        return 0;
      }
      var gainOffset := GainOffset(params, rx);
      var modeOffset := GetModeRssiOffset(mode, ToInt16(freq));
      var tempOffset := TempOffset(params, tempAdc);
      var rssiLog2Compensated := CdbmToLog2(params, cdbm);
      var rssiLog2: i16 := ToInt16(ToInt16(rssiLog2Compensated) as int + gainOffset + modeOffset + tempOffset);
      if rssiLog2 <= 0 {
        return 0;
      }
      return rssiLog2;
    }
  }
}
