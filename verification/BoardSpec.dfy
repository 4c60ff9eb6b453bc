/**
  The GpioPinsSetClear struct that setters update in place, and the board's functions that
  build level words and masks from antenna, power, filter and band.
 */
module BoardSpec {
  import opened GpioPins
  import opened Wrappers

  const LOW_BIAS_TX_POWER_MAX_CDBM := 2700

  class GpioPinsSetClear {
    var outputLevelSet: bv32
    var outputLevelClear: bv32
    var outputEnableSet: bv32
    var outputEnableClear: bv32

    ghost function Value(): Pins
      reads this
    {
      Pins(outputLevelSet, outputLevelClear, outputEnableSet, outputEnableClear)
    }

    method SetClearGpioPins(levelBits: bv32, maskBits: bv32)
      modifies this
      ensures Value() == old(Value()).Join(Pins(levelBits & maskBits, !levelBits & maskBits, maskBits, 0))
    {
      hide Or;
      outputLevelSet := Or(outputLevelSet, levelBits & maskBits);
      outputLevelClear := Or(outputLevelClear, !levelBits & maskBits);
      outputEnableSet := Or(outputEnableSet, maskBits);
      outputEnableClear := Or(outputEnableClear, 0);
    }
  }

  /** What every setter promises: a NULL struct or a bad value is reported and changes nothing. */
  function SetterError(isNull: bool, s: Setter): ErrorCode {
    if isNull then NullPointer else if Accepted(s) then Success else BadParamValue
  }

  method SetAntennaPort(p: GpioPinsSetClear?, antenna: nat) returns (error: ErrorCode)
    modifies p
    ensures error == SetterError(p == null, AntennaPort(antenna))
    ensures p != null ==> p.Value() == old(p.Value()).Join(Effect(AntennaPort(antenna)))
  {
    if p == null {
      return NullPointer;
    }
    if antenna > ANTENNA_PORT_COUNT || antenna == 0 {
      JoinLaws(p.Value(), ZERO, ZERO);
      return BadParamValue;
    }
    p.SetClearGpioPins(Bit(antenna == 1, ANTENNA_PIN), ANTENNA_PIN);
    return Success;
  }

  method SetRxBasebandFilter(p: GpioPinsSetClear?, filter: int) returns (error: ErrorCode)
    modifies p
    ensures error == SetterError(p == null, BasebandFilter(filter))
    ensures p != null ==> p.Value() == old(p.Value()).Join(Effect(BasebandFilter(filter)))
  {
    if p == null {
      return NullPointer;
    }
    if filter != BASEBAND_HIGHPASS && filter != BASEBAND_BANDPASS {
      JoinLaws(p.Value(), ZERO, ZERO);
      return BadParamValue;
    }
    p.SetClearGpioPins(Bit(filter == BASEBAND_BANDPASS, BASEBAND_PIN), BASEBAND_PIN);
    return Success;
  }

  method SetPaBiasEnable(p: GpioPinsSetClear?, enable: bool) returns (error: ErrorCode)
    modifies p
    ensures error == SetterError(p == null, PaBiasEnable(enable))
    ensures p != null ==> p.Value() == old(p.Value()).Join(Effect(PaBiasEnable(enable)))
  {
    if p == null {
      return NullPointer;
    }
    p.SetClearGpioPins(Bit(enable, PA_BIAS_PIN), PA_BIAS_PIN);
    return Success;
  }

  method SetPaPowerRange(p: GpioPinsSetClear?, range: int) returns (error: ErrorCode)
    modifies p
    ensures error == SetterError(p == null, PaPowerRange(range))
    ensures p != null ==> p.Value() == old(p.Value()).Join(Effect(PaPowerRange(range)))
  {
    if p == null {
      return NullPointer;
    }
    if range != POWER_RANGE_LOW && range != POWER_RANGE_HIGH {
      JoinLaws(p.Value(), ZERO, ZERO);
      return BadParamValue;
    }
    p.SetClearGpioPins(Bit(range == POWER_RANGE_HIGH, POWER_RANGE_PIN), POWER_RANGE_PIN);
    return Success;
  }

  method SetRfPowerSupplyEnable(p: GpioPinsSetClear?, enable: bool) returns (error: ErrorCode)
    modifies p
    ensures error == SetterError(p == null, RfPowerSupply(enable))
    ensures p != null ==> p.Value() == old(p.Value()).Join(Effect(RfPowerSupply(enable)))
  {
    if p == null {
      return NullPointer;
    }
    p.SetClearGpioPins(Bit(enable, RF_ENABLE_PIN), RF_ENABLE_PIN);
    return Success;
  }

  method SetTxRfFilter(p: GpioPinsSetClear?, band: int) returns (error: ErrorCode)
    modifies p
    ensures error == SetterError(p == null, TxRfFilter(band))
    ensures p != null ==> p.Value() == old(p.Value()).Join(Effect(TxRfFilter(band)))
  {
    if p == null {
      return NullPointer;
    }
    if band != LOWER_BAND && band != UPPER_BAND {
      JoinLaws(p.Value(), ZERO, ZERO);
      return BadParamValue;
    }
    p.SetClearGpioPins(Bit(band == LOWER_BAND, SAW_PIN), SAW_PIN);
    return Success;
  }

  method SetDioUnusedPins(p: GpioPinsSetClear?, dioBits: bv32) returns (error: ErrorCode)
    modifies p
    ensures error == SetterError(p == null, UnusedDio(dioBits))
    ensures p != null ==> p.Value() == old(p.Value()).Join(Effect(UnusedDio(dioBits)))
  {
    if p == null {
      return NullPointer;
    }
    p.SetClearGpioPins(dioBits, DIO_0 | DIO_1 | DIO_6 | DIO_8 | DIO_13);
    return Success;
  }

  // ---- get_gpio_output_pins_set_clear ----

  function PowerRange(txPowerCdbm: int): int {
    if txPowerCdbm <= LOW_BIAS_TX_POWER_MAX_CDBM then POWER_RANGE_LOW else POWER_RANGE_HIGH
  }

  /** The setter calls that the function makes, in its order, up to the first that is refused. */
  function OutputSetters(antenna: nat, txPowerCdbm: int, filter: int, band: int): seq<Setter> {
    [AntennaPort(antenna), PaPowerRange(PowerRange(txPowerCdbm)), BasebandFilter(filter), TxRfFilter(band)]
  }

  predicate ValidOutputs(antenna: nat, filter: int, band: int) {
    antenna in {1, 2} && filter in {BASEBAND_HIGHPASS, BASEBAND_BANDPASS} && band in {LOWER_BAND, UPPER_BAND}
  }

  /** How many of the calls are made before one is refused. */
  function CallsMade(antenna: nat, filter: int): nat {
    if antenna !in {1, 2} then 0 else if filter !in {BASEBAND_HIGHPASS, BASEBAND_BANDPASS} then 2 else 4
  }

  method GetGpioOutputPinsSetClear(p: GpioPinsSetClear, antenna: nat, txPowerCdbm: int, filter: int, band: int)
    returns (error: ErrorCode)
    modifies p
    ensures error == if ValidOutputs(antenna, filter, band) then Success else BadParamValue
    ensures antenna !in {1, 2} ==> p.Value() == Pins(0, 0, 0, 0)
    ensures p.Value()
         == RunSetters(ZERO, OutputSetters(antenna, txPowerCdbm, filter, band)[..CallsMade(antenna, filter)])
  {
    hide Effect, Pins.Join;
    var range := PowerRange(txPowerCdbm);
    ghost var calls := OutputSetters(antenna, txPowerCdbm, filter, band);
    p.outputLevelSet, p.outputLevelClear, p.outputEnableSet, p.outputEnableClear := 0, 0, 0, 0;
    FourCalls(calls, ZERO);
    error := SetAntennaPort(p, antenna);
    if error != Success {
      RefusedChangesNothing(ZERO, calls[0]);
      return;
    }
    error := SetPaPowerRange(p, range);
    if error != Success {
      return;
    }
    error := SetRxBasebandFilter(p, filter);
    if error != Success {
      RefusedChangesNothing(ZERO.Join(Effect(calls[0])).Join(Effect(calls[1])), calls[2]);
      return;
    }
    error := SetTxRfFilter(p, band);
    if error != Success {
      return;
    }
    return Success;
  }

  lemma RefusedChangesNothing(p: Pins, s: Setter)
    requires !Accepted(s)
    ensures p.Join(Effect(s)) == p
  {
  }

  /** Runs of up to four calls, unfolded. */
  lemma FourCalls(calls: seq<Setter>, p: Pins)
    requires |calls| == 4
    ensures RunSetters(p, calls[..0]) == p
    ensures RunSetters(p, calls[..2]) == p.Join(Effect(calls[0])).Join(Effect(calls[1]))
    ensures RunSetters(p, calls[..4])
         == p.Join(Effect(calls[0])).Join(Effect(calls[1])).Join(Effect(calls[2])).Join(Effect(calls[3]))
  {
    hide Effect, Pins.Join;
    var p1 := p.Join(Effect(calls[0]));
    var p2 := p1.Join(Effect(calls[1]));
    var p3 := p2.Join(Effect(calls[2]));
    assert calls[..4][1..] == [calls[1], calls[2], calls[3]];
    assert calls[..2][1..] == [calls[1]] && calls[..2][0] == calls[0] && calls[..4][0] == calls[0];
    assert RunSetters(p1, [calls[1]]) == p2;
    assert [calls[1], calls[2], calls[3]][1..] == [calls[2], calls[3]];
    assert [calls[2], calls[3]][1..] == [calls[3]];
    assert RunSetters(p3, [calls[3]]) == p3.Join(Effect(calls[3]));
    assert RunSetters(p2, [calls[2], calls[3]]) == RunSetters(p3, [calls[3]]);
    assert RunSetters(p1, [calls[1], calls[2], calls[3]]) == RunSetters(p2, [calls[2], calls[3]]);
  }

  // ---- Masks and level words agree ----

  /** What the reader chip does with the masks: set pins go high, cleared pins go low, the others keep their level. */
  function ApplyMasks(levels: bv32, p: Pins): bv32 {
    And(Or(levels, p.levelSet), Not(p.levelClear))
  }

  function OutputMasks(antenna: nat, txPowerCdbm: int, filter: int, band: int): Pins {
    RunSetters(ZERO, OutputSetters(antenna, txPowerCdbm, filter, band))
  }

  function Or4(a: bv32, b: bv32, c: bv32, d: bv32): bv32 {
    Or(Or(Or(a, b), c), d)
  }

  /** The masks in closed form. */
  function ClosedMasks(antenna: nat, high: bool, filter: int, band: int): Pins {
    Pins(Or4(Bit(antenna == 1, ANTENNA_PIN), Bit(high, POWER_RANGE_PIN),
             Bit(filter == BASEBAND_BANDPASS, BASEBAND_PIN), Bit(band == LOWER_BAND, SAW_PIN)),
         Or4(Bit(antenna != 1, ANTENNA_PIN), Bit(!high, POWER_RANGE_PIN),
             Bit(filter != BASEBAND_BANDPASS, BASEBAND_PIN), Bit(band != LOWER_BAND, SAW_PIN)),
         Or4(ANTENNA_PIN, POWER_RANGE_PIN, BASEBAND_PIN, SAW_PIN),
         0)
  }

  /** The masks that drive a single pin. */
  function OnePin(pin: bv32, on: bool): Pins {
    Pins(Bit(on, pin), Bit(!on, pin), pin, 0)
  }

  lemma SinglePinEffects(antenna: nat, range: int, filter: int, band: int)
    requires ValidOutputs(antenna, filter, band) && range in {POWER_RANGE_LOW, POWER_RANGE_HIGH}
    ensures Effect(AntennaPort(antenna)) == OnePin(ANTENNA_PIN, antenna == 1)
    ensures Effect(PaPowerRange(range)) == OnePin(POWER_RANGE_PIN, range == POWER_RANGE_HIGH)
    ensures Effect(BasebandFilter(filter)) == OnePin(BASEBAND_PIN, filter == BASEBAND_BANDPASS)
    ensures Effect(TxRfFilter(band)) == OnePin(SAW_PIN, band == LOWER_BAND)
  {
  }

  lemma JoinFour(a: Pins, b: Pins, c: Pins, d: Pins)
    ensures ZERO.Join(a).Join(b).Join(c).Join(d)
         == Pins(Or4(a.levelSet, b.levelSet, c.levelSet, d.levelSet),
                 Or4(a.levelClear, b.levelClear, c.levelClear, d.levelClear),
                 Or4(a.enableSet, b.enableSet, c.enableSet, d.enableSet),
                 Or4(a.enableClear, b.enableClear, c.enableClear, d.enableClear))
  {
  }

  lemma MasksInClosedForm(antenna: nat, txPowerCdbm: int, filter: int, band: int)
    requires ValidOutputs(antenna, filter, band)
    ensures OutputMasks(antenna, txPowerCdbm, filter, band)
         == ClosedMasks(antenna, txPowerCdbm > LOW_BIAS_TX_POWER_MAX_CDBM, filter, band)
  {
    hide Effect, Pins.Join, Bit;
    var calls := OutputSetters(antenna, txPowerCdbm, filter, band);
    FourCalls(calls, ZERO);
    assert calls[..4] == calls;
    SinglePinEffects(antenna, PowerRange(txPowerCdbm), filter, band);
    JoinFour(Effect(calls[0]), Effect(calls[1]), Effect(calls[2]), Effect(calls[3]));
    assert Or4(0, 0, 0, 0) == 0;
  }

  /** The masks contradict each other nowhere and cover exactly pins 7, 15, 18 and 19. */
  lemma MasksCoverFourPins(antenna: nat, txPowerCdbm: int, filter: int, band: int)
    requires ValidOutputs(antenna, filter, band)
    ensures var p := OutputMasks(antenna, txPowerCdbm, filter, band);
            && p.levelSet & p.levelClear == 0
            && p.levelSet | p.levelClear == p.enableSet
            && p.enableSet == (1 << 7) | (1 << 15) | (1 << 18) | (1 << 19)
            && p.enableClear == 0
  {
    MasksInClosedForm(antenna, txPowerCdbm, filter, band);
  }

  predicate Drives(p: Pins, pin: bv32, on: bool) {
    if on then And(p.levelSet, pin) == pin && And(p.levelClear, pin) == 0 else And(p.levelClear, pin) == pin
  }

  predicate LeavesOut(p: Pins, pins: bv32) {
    And(p.levelSet, pins) == 0 && And(p.levelClear, pins) == 0
  }

  /** Pins that the masks leave out keep their levels. */
  lemma LeftOutKept(levels: bv32, p: Pins, pins: bv32)
    requires LeavesOut(p, pins)
    ensures And(ApplyMasks(levels, p), pins) == And(levels, pins)
  {
  }

  /** A pin that the masks drive gets that level. */
  lemma DrivenSet(levels: bv32, p: Pins, pin: bv32, on: bool)
    requires pin != 0 && Drives(p, pin, on)
    ensures IsHigh(ApplyMasks(levels, p), pin) == on
  {
  }

  lemma LeftOutLevel(levels: bv32, p: Pins, pin: bv32)
    requires LeavesOut(p, pin)
    ensures IsHigh(ApplyMasks(levels, p), pin) == IsHigh(levels, pin)
  {
    hide And, ApplyMasks;
    LeftOutKept(levels, p, pin);
  }

  /** Masks that drive one output pin set that pin and leave the level of every other output pin. */
  lemma OnePinLevels(levels: bv32, pin: bv32, on: bool, q: bv32)
    requires IsOutputPin(pin) && IsOutputPin(q)
    ensures IsHigh(ApplyMasks(levels, OnePin(pin, on)), q) == if q == pin then on else IsHigh(levels, q)
  {
    hide ApplyMasks, IsHigh;
    if q == pin {
      assert Drives(OnePin(pin, on), pin, on);
      DrivenSet(levels, OnePin(pin, on), pin, on);
    } else {
      assert LeavesOut(OnePin(pin, on), q);
      LeftOutLevel(levels, OnePin(pin, on), q);
    }
  }

  /** Driving one pin changes the field of that pin to the level asked for, and no other field. */
  lemma OnePinDecodes(levels: bv32, pin: bv32, on: bool)
    requires IsOutputPin(pin)
    ensures var c := GetConfig(levels);
            GetConfig(ApplyMasks(levels, OnePin(pin, on))) ==
            if pin == ANTENNA_PIN then c.(antenna := if on then 1 else 2)
            else if pin == BASEBAND_PIN then c.(basebandFilter := if on then 1 else 0)
            else if pin == DIO_0 then c.(dio0 := on)
            else if pin == DIO_1 then c.(dio1 := on)
            else if pin == DIO_6 then c.(dio6 := on)
            else if pin == DIO_8 then c.(dio8 := on)
            else if pin == DIO_13 then c.(dio13 := on)
            else if pin == PA_BIAS_PIN then c.(paBiasEnable := on)
            else if pin == POWER_RANGE_PIN then c.(powerRange := if on then 1 else 0)
            else if pin == RF_ENABLE_PIN then c.(rfEnable := on)
            else c.(rfFilter := if on then 1 else 2)
  {
    hide ApplyMasks, IsHigh, OnePin;
    forall q | IsOutputPin(q)
      ensures IsHigh(ApplyMasks(levels, OnePin(pin, on)), q) == if q == pin then on else IsHigh(levels, q)
    {
      OnePinLevels(levels, pin, on, q);
    }
  }

  lemma MaskedSet(bits: bv32, mask: bv32, q: bv32)
    requires And(mask, q) == q
    ensures And(And(bits, mask), q) == And(bits, q)
  {
  }

  lemma MaskedClear(bits: bv32, mask: bv32, q: bv32)
    requires And(mask, q) == q
    ensures And(bits, q) == q ==> And(And(Not(bits), mask), q) == 0
    ensures And(bits, q) == 0 ==> And(And(Not(bits), mask), q) == q
  {
  }

  lemma MaskedOut(bits: bv32, mask: bv32, q: bv32)
    requires And(mask, q) == 0
    ensures And(And(bits, mask), q) == 0
  {
  }

  lemma SingleBit(bits: bv32, q: bv32)
    requires IsOutputPin(q)
    ensures And(bits, q) == 0 || And(bits, q) == q
  {
  }

  predicate IsDio(q: bv32) {
    q in {DIO_0, DIO_1, DIO_6, DIO_8, DIO_13}
  }

  lemma DioMask(q: bv32)
    requires IsOutputPin(q)
    ensures q != 0 && And(Mask(UnusedDio(0)), q) == if IsDio(q) then q else 0
  {
  }

  lemma DioEffect(bits: bv32)
    ensures Effect(UnusedDio(bits)) ==
            Pins(And(bits, Mask(UnusedDio(0))), And(Not(bits), Mask(UnusedDio(0))), Mask(UnusedDio(0)), 0)
  {
  }

  lemma DioLevels(levels: bv32, bits: bv32, q: bv32)
    requires IsOutputPin(q)
    ensures IsHigh(ApplyMasks(levels, Effect(UnusedDio(bits))), q) == IsHigh(if IsDio(q) then bits else levels, q)
  {
    var mask, p := Mask(UnusedDio(0)), Effect(UnusedDio(bits));
    DioEffect(bits);
    DioMask(q);
    hide And, Not, ApplyMasks, Effect, Mask, IsDio, IsOutputPin;
    if IsDio(q) {
      SingleBit(bits, q);
      MaskedSet(bits, mask, q);
      MaskedClear(bits, mask, q);
      DrivenSet(levels, p, q, IsHigh(bits, q));
    } else {
      MaskedOut(bits, mask, q);
      MaskedOut(Not(bits), mask, q);
      LeftOutLevel(levels, p, q);
    }
  }

  lemma DioBits(bits: bv32)
    ensures IsHigh(bits, DIO_0) == (bits & 0x1 != 0) && IsHigh(bits, DIO_1) == (bits & 0x2 != 0)
    ensures IsHigh(bits, DIO_6) == (bits & 0x40 != 0) && IsHigh(bits, DIO_8) == (bits & 0x100 != 0)
    ensures IsHigh(bits, DIO_13) == (bits & 0x2000 != 0)
  {
  }

  lemma DioDecodes(levels: bv32, bits: bv32)
    ensures GetConfig(ApplyMasks(levels, Effect(UnusedDio(bits)))) ==
            GetConfig(levels).(dio0 := IsHigh(bits, DIO_0), dio1 := IsHigh(bits, DIO_1), dio6 := IsHigh(bits, DIO_6),
                               dio8 := IsHigh(bits, DIO_8), dio13 := IsHigh(bits, DIO_13))
  {
    hide ApplyMasks, IsHigh, Effect;
    DioLevels(levels, bits, ANTENNA_PIN);
    DioLevels(levels, bits, BASEBAND_PIN);
    DioLevels(levels, bits, DIO_0);
    DioLevels(levels, bits, DIO_1);
    DioLevels(levels, bits, DIO_6);
    DioLevels(levels, bits, DIO_8);
    DioLevels(levels, bits, DIO_13);
    DioLevels(levels, bits, PA_BIAS_PIN);
    DioLevels(levels, bits, POWER_RANGE_PIN);
    DioLevels(levels, bits, RF_ENABLE_PIN);
    DioLevels(levels, bits, SAW_PIN);
  }

  lemma SwitchEffects(on: bool)
    ensures Effect(PaBiasEnable(on)) == OnePin(PA_BIAS_PIN, on)
    ensures Effect(RfPowerSupply(on)) == OnePin(RF_ENABLE_PIN, on)
  {
  }

  /** Applied to any levels, an accepted setter call changes the fields it is named after to what it asks for. */
  lemma SetterDecodes(levels: bv32, s: Setter)
    requires Accepted(s)
    ensures var c := GetConfig(levels);
            GetConfig(ApplyMasks(levels, Effect(s))) ==
            match s
            case AntennaPort(port) => c.(antenna := port)
            case BasebandFilter(filter) => c.(basebandFilter := filter)
            case PaBiasEnable(on) => c.(paBiasEnable := on)
            case PaPowerRange(range) => c.(powerRange := range)
            case RfPowerSupply(on) => c.(rfEnable := on)
            case TxRfFilter(band) => c.(rfFilter := band)
            case UnusedDio(bits) =>
              c.(dio0 := bits & 0x1 != 0, dio1 := bits & 0x2 != 0, dio6 := bits & 0x40 != 0,
                 dio8 := bits & 0x100 != 0, dio13 := bits & 0x2000 != 0)
  {
    hide ApplyMasks, IsHigh, Effect, OnePin, GetConfig;
    match s
    case AntennaPort(port) =>
      SinglePinEffects(port, 0, 0, 1);
      OnePinDecodes(levels, ANTENNA_PIN, port == 1);
    case BasebandFilter(filter) =>
      SinglePinEffects(1, 0, filter, 1);
      OnePinDecodes(levels, BASEBAND_PIN, filter == 1);
    case PaBiasEnable(on) =>
      SwitchEffects(on);
      OnePinDecodes(levels, PA_BIAS_PIN, on);
    case PaPowerRange(range) =>
      SinglePinEffects(1, range, 0, 1);
      OnePinDecodes(levels, POWER_RANGE_PIN, range == 1);
    case RfPowerSupply(on) =>
      SwitchEffects(on);
      OnePinDecodes(levels, RF_ENABLE_PIN, on);
    case TxRfFilter(band) =>
      SinglePinEffects(1, 0, 0, band);
      OnePinDecodes(levels, SAW_PIN, band == 1);
    case UnusedDio(bits) =>
      DioBits(bits);
      DioDecodes(levels, bits);
  }

  /** Which pins the closed form drives, and which it leaves out. */
  lemma MaskPins(antenna: nat, high: bool, filter: int, band: int)
    ensures var p := ClosedMasks(antenna, high, filter, band);
            && LeavesOut(p, DIO_0) && LeavesOut(p, DIO_1) && LeavesOut(p, DIO_6) && LeavesOut(p, DIO_8)
            && LeavesOut(p, DIO_13) && LeavesOut(p, PA_BIAS_PIN) && LeavesOut(p, RF_ENABLE_PIN)
            && Drives(p, ANTENNA_PIN, antenna == 1) && Drives(p, POWER_RANGE_PIN, high)
            && Drives(p, BASEBAND_PIN, filter == BASEBAND_BANDPASS) && Drives(p, SAW_PIN, band == LOWER_BAND)
            && LeavesOut(p, Not(p.enableSet))
  {
  }

  /**
    Applied to any level word, the masks give the requested antenna, power range, filter and
    band, and leave every other field, and every pin outside the four, as it was.
   */
  lemma MasksRefineLevels(levels: bv32, antenna: nat, txPowerCdbm: int, filter: int, band: int)
    requires ValidOutputs(antenna, filter, band)
    ensures GetConfig(ApplyMasks(levels, OutputMasks(antenna, txPowerCdbm, filter, band)))
         == GetConfig(levels).(antenna := antenna, powerRange := if txPowerCdbm <= 2700 then 0 else 1,
                               basebandFilter := filter, rfFilter := band)
    ensures var p := OutputMasks(antenna, txPowerCdbm, filter, band);
            And(ApplyMasks(levels, p), Not(p.enableSet)) == And(levels, Not(p.enableSet))
  {
    hide And, IsHigh, ApplyMasks, ClosedMasks, OutputMasks, Drives, LeavesOut;
    var high := txPowerCdbm > LOW_BIAS_TX_POWER_MAX_CDBM;
    var p := ClosedMasks(antenna, high, filter, band);
    MasksInClosedForm(antenna, txPowerCdbm, filter, band);
    MaskPins(antenna, high, filter, band);
    DrivenSet(levels, p, ANTENNA_PIN, antenna == 1);
    DrivenSet(levels, p, BASEBAND_PIN, filter == BASEBAND_BANDPASS);
    DrivenSet(levels, p, POWER_RANGE_PIN, high);
    DrivenSet(levels, p, SAW_PIN, band == LOWER_BAND);
    LeftOutLevel(levels, p, DIO_0);
    LeftOutLevel(levels, p, DIO_1);
    LeftOutLevel(levels, p, DIO_6);
    LeftOutLevel(levels, p, DIO_8);
    LeftOutLevel(levels, p, DIO_13);
    LeftOutLevel(levels, p, PA_BIAS_PIN);
    LeftOutLevel(levels, p, RF_ENABLE_PIN);
    LeftOutKept(levels, p, Not(p.enableSet));
  }

  // ---- Level words ----

  function OutputConfig(antenna: nat, filter: int, band: int): Config {
    Config(antenna, filter, false, false, false, false, false, true, POWER_RANGE_HIGH, true, band)
  }

  method GetGpioOutputLevels(antenna: nat, filter: int, band: int, target: Option<bv32>)
    returns (error: ErrorCode, levels: Option<bv32>)
    ensures error == if target.None? then NullPointer
                     else if ValidOutputs(antenna, filter, band) then Success else BadParamValue
    ensures error == Success ==> levels.Some?
    ensures error == Success ==>
              GetConfig(levels.value) == Config(antenna, filter, false, false, false, false, false, true, 1, true, band)
    ensures error == Success ==> And(levels.value, Not(OutputEnables())) == 0
    ensures error != Success ==> levels == target
  {
    error, levels := GetLevels(Some(OutputConfig(antenna, filter, band)), target);
    if error == Success {
      LevelsRoundTrip(levels.value);
      OutsideOutputs(levels.value);
    }
  }

  lemma OutsideOutputs(word: bv32)
    requires word & OutputEnables() == word
    ensures And(word, Not(OutputEnables())) == 0
  {
  }

  /**
    The two ways of producing levels agree: applied to the level word of any valid
    configuration, the masks give the level word of that configuration with the requested
    antenna, power range, filter and band.
   */
  lemma MasksReachLevelWord(c: Config, antenna: nat, txPowerCdbm: int, filter: int, band: int)
    requires c.Valid() && ValidOutputs(antenna, filter, band)
    ensures ApplyMasks(LevelWord(c), OutputMasks(antenna, txPowerCdbm, filter, band))
         == LevelWord(c.(antenna := antenna, powerRange := PowerRange(txPowerCdbm),
                         basebandFilter := filter, rfFilter := band))
  {
    hide ApplyMasks, LevelWord, RunSetters, GetConfig, And, OutputEnables, OutputMasks;
    var before := LevelWord(c);
    var p := OutputMasks(antenna, txPowerCdbm, filter, band);
    var after := ApplyMasks(before, p);
    ConfigRoundTrip(c);
    MasksRefineLevels(before, antenna, txPowerCdbm, filter, band);
    LevelsRoundTrip(after);
    LevelsRoundTrip(before);
    MasksCoverFourPins(antenna, txPowerCdbm, filter, band);
    StaysInside(before, p);
  }

  lemma StaysInside(before: bv32, p: Pins)
    requires before & OutputEnables() == before
    requires And(ApplyMasks(before, p), Not(p.enableSet)) == And(before, Not(p.enableSet))
    requires p.enableSet == (1 << 7) | (1 << 15) | (1 << 18) | (1 << 19)
    ensures ApplyMasks(before, p) & OutputEnables() == ApplyMasks(before, p)
  {
  }

  // ---- The default setup ----

  const DEFAULT_CONFIG := Config(1, BASEBAND_BANDPASS, false, false, false, false, false,
                                 true, POWER_RANGE_HIGH, true, UPPER_BAND)

  method GetDefaultGpioSetup() returns (p: Pins)
    ensures And(p.levelSet, p.levelClear) == 0 && And(p.enableSet, p.enableClear) == 0
    ensures Or(p.levelSet, p.levelClear) == Or(p.enableSet, p.enableClear) == Not(IRQ_N_PIN)
    ensures p.enableSet == OutputEnables()
    ensures forall levels :: GetConfig(ApplyMasks(levels, p)) ==
              Config(1, 1, false, false, false, false, false, true, 1, true, 2)
    ensures forall levels :: IsHigh(ApplyMasks(levels, p), IRQ_N_PIN) == IsHigh(levels, IRQ_N_PIN)
  {
    var allowed := Not(IRQ_N_PIN);
    var enableSet := OutputEnables();
    var levelSet := LevelWord(DEFAULT_CONFIG);
    p := Pins(And(levelSet, allowed), And(Not(levelSet), allowed),
              And(enableSet, allowed), And(Not(enableSet), allowed));
    hide And, Or, Not, ApplyMasks, GetConfig, IsHigh, LevelWord, OutputEnables;
    Partition(levelSet, allowed);
    Partition(enableSet, allowed);
    OutputsAllowed();
    forall levels
      ensures GetConfig(ApplyMasks(levels, p)) == DEFAULT_CONFIG
      ensures IsHigh(ApplyMasks(levels, p), IRQ_N_PIN) == IsHigh(levels, IRQ_N_PIN)
    {
      DefaultApplies(levels, p);
    }
  }

  lemma Partition(word: bv32, allowed: bv32)
    ensures And(And(word, allowed), And(Not(word), allowed)) == 0
    ensures Or(And(word, allowed), And(Not(word), allowed)) == allowed
  {
  }

  lemma OutputsAllowed()
    ensures And(OutputEnables(), Not(IRQ_N_PIN)) == OutputEnables()
  {
  }

  lemma DefaultApplies(levels: bv32, p: Pins)
    requires p.levelSet == And(LevelWord(DEFAULT_CONFIG), Not(IRQ_N_PIN))
    requires p.levelClear == And(Not(LevelWord(DEFAULT_CONFIG)), Not(IRQ_N_PIN))
    ensures GetConfig(ApplyMasks(levels, p)) == DEFAULT_CONFIG
    ensures IsHigh(ApplyMasks(levels, p), IRQ_N_PIN) == IsHigh(levels, IRQ_N_PIN)
  {
  }
}
