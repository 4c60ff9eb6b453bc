/**
  The pin levels of the reader chip's DIGITAL_IO lines, produced in two ways: as a full level
  word (ex10_gpio_get_levels) and as set and clear masks accumulated by setters.
 */
module GpioPins {
  import opened Wrappers

  const ANTENNA_PIN: bv32 := 1 << 19
  const BASEBAND_PIN: bv32 := 1 << 7
  const DIO_0: bv32 := 1
  const DIO_1: bv32 := 1 << 1
  const DIO_6: bv32 := 1 << 6
  const DIO_8: bv32 := 1 << 8
  const DIO_13: bv32 := 1 << 13
  const PA_BIAS_PIN: bv32 := 1 << 16
  const POWER_RANGE_PIN: bv32 := 1 << 15
  const RF_ENABLE_PIN: bv32 := 1 << 17
  const SAW_PIN: bv32 := 1 << 18
  const IRQ_N_PIN: bv32 := 1 << 5

  const ANTENNA_PORT_COUNT := 2
  const BASEBAND_HIGHPASS := 0
  const BASEBAND_BANDPASS := 1
  const POWER_RANGE_LOW := 0
  const POWER_RANGE_HIGH := 1
  const LOWER_BAND := 1
  const UPPER_BAND := 2

  datatype ErrorCode = Success | NullPointer | BadParamValue

  /** struct Ex10GpioConfig; the enumerations are integers, because a caller can pass any value. */
  datatype Config = Config(
    antenna: nat, basebandFilter: int,
    dio0: bool, dio1: bool, dio6: bool, dio8: bool, dio13: bool,
    paBiasEnable: bool, powerRange: int, rfEnable: bool, rfFilter: int)
  {
    predicate Valid() {
      && antenna in {1, 2}
      && basebandFilter in {BASEBAND_HIGHPASS, BASEBAND_BANDPASS}
      && powerRange in {POWER_RANGE_LOW, POWER_RANGE_HIGH}
      && rfFilter in {LOWER_BAND, UPPER_BAND}
    }
  }

  function Bit(on: bool, pin: bv32): bv32 {
    if on then pin else 0
  }

  predicate IsHigh(levels: bv32, pin: bv32) {
    And(levels, pin) != 0
  }

  /** ex10_gpio_get_config. */
  function GetConfig(levels: bv32): Config {
    Config(
      if IsHigh(levels, ANTENNA_PIN) then 1 else 2,
      if IsHigh(levels, BASEBAND_PIN) then BASEBAND_BANDPASS else BASEBAND_HIGHPASS,
      IsHigh(levels, DIO_0), IsHigh(levels, DIO_1), IsHigh(levels, DIO_6), IsHigh(levels, DIO_8),
      IsHigh(levels, DIO_13),
      IsHigh(levels, PA_BIAS_PIN),
      if IsHigh(levels, POWER_RANGE_PIN) then POWER_RANGE_HIGH else POWER_RANGE_LOW,
      IsHigh(levels, RF_ENABLE_PIN),
      if IsHigh(levels, SAW_PIN) then LOWER_BAND else UPPER_BAND)
  }

  function Or11(a: bv32, b: bv32, c: bv32, d: bv32, e: bv32, f: bv32, g: bv32, h: bv32,
                i: bv32, j: bv32, k: bv32): bv32
  {
    a | b | c | d | e | f | g | h | i | j | k
  }

  function WordOf(a: bool, b: bool, c: bool, d: bool, e: bool, f: bool, g: bool, h: bool,
                  i: bool, j: bool, k: bool): bv32
  {
    Or11(Bit(a, ANTENNA_PIN), Bit(b, BASEBAND_PIN), Bit(c, DIO_0), Bit(d, DIO_1), Bit(e, DIO_6), Bit(f, DIO_8),
         Bit(g, DIO_13), Bit(h, PA_BIAS_PIN), Bit(i, POWER_RANGE_PIN), Bit(j, RF_ENABLE_PIN), Bit(k, SAW_PIN))
  }

  /** The level word of ex10_gpio_get_levels. */
  function LevelWord(c: Config): bv32 {
    WordOf(c.antenna == 1, c.basebandFilter == BASEBAND_BANDPASS, c.dio0, c.dio1, c.dio6, c.dio8, c.dio13,
           c.paBiasEnable, c.powerRange == POWER_RANGE_HIGH, c.rfEnable, c.rfFilter == LOWER_BAND)
  }

  function OutputEnables(): bv32 {
    Or11(ANTENNA_PIN, BASEBAND_PIN, DIO_0, DIO_1, DIO_6, DIO_8, DIO_13, PA_BIAS_PIN, POWER_RANGE_PIN,
         RF_ENABLE_PIN, SAW_PIN)
  }

  /** The pin of every field, written out, and the word of all output pins. */
  lemma PinNumbers(levels: bv32)
    ensures GetConfig(levels) == Config(
              if levels & 0x80000 != 0 then 1 else 2,
              if levels & 0x80 != 0 then 1 else 0,
              levels & 0x1 != 0, levels & 0x2 != 0, levels & 0x40 != 0, levels & 0x100 != 0, levels & 0x2000 != 0,
              levels & 0x10000 != 0,
              if levels & 0x8000 != 0 then 1 else 0,
              levels & 0x20000 != 0,
              if levels & 0x40000 != 0 then 1 else 2)
    ensures OutputEnables() == 0xFA1C3
  {
  }

  // Each pin of a word made from eleven settings reads back its own setting.

  lemma LowPinsOfWord(a: bool, b: bool, c: bool, d: bool, e: bool, f: bool, g: bool, h: bool, i: bool, j: bool, k: bool)
    ensures var word := WordOf(a, b, c, d, e, f, g, h, i, j, k);
            IsHigh(word, DIO_0) == c && IsHigh(word, DIO_1) == d && IsHigh(word, DIO_6) == e
            && IsHigh(word, BASEBAND_PIN) == b
  {
  }

  lemma MiddlePinsOfWord(a: bool, b: bool, c: bool, d: bool, e: bool, f: bool, g: bool, h: bool,
                         i: bool, j: bool, k: bool)
    ensures var word := WordOf(a, b, c, d, e, f, g, h, i, j, k);
            IsHigh(word, DIO_8) == f && IsHigh(word, DIO_13) == g && IsHigh(word, POWER_RANGE_PIN) == i
            && IsHigh(word, PA_BIAS_PIN) == h
  {
  }

  lemma HighPinsOfWord(a: bool, b: bool, c: bool, d: bool, e: bool, f: bool, g: bool, h: bool,
                       i: bool, j: bool, k: bool)
    ensures var word := WordOf(a, b, c, d, e, f, g, h, i, j, k);
            IsHigh(word, RF_ENABLE_PIN) == j && IsHigh(word, SAW_PIN) == k && IsHigh(word, ANTENNA_PIN) == a
  {
  }

  /** A word decodes to a valid configuration when its pins have the levels of that configuration. */
  lemma DecodesTo(word: bv32, c: Config)
    requires c.Valid()
    requires IsHigh(word, ANTENNA_PIN) == (c.antenna == 1)
    requires IsHigh(word, BASEBAND_PIN) == (c.basebandFilter == BASEBAND_BANDPASS)
    requires IsHigh(word, DIO_0) == c.dio0 && IsHigh(word, DIO_1) == c.dio1 && IsHigh(word, DIO_6) == c.dio6
    requires IsHigh(word, DIO_8) == c.dio8 && IsHigh(word, DIO_13) == c.dio13
    requires IsHigh(word, PA_BIAS_PIN) == c.paBiasEnable
    requires IsHigh(word, POWER_RANGE_PIN) == (c.powerRange == POWER_RANGE_HIGH)
    requires IsHigh(word, RF_ENABLE_PIN) == c.rfEnable
    requires IsHigh(word, SAW_PIN) == (c.rfFilter == LOWER_BAND)
    ensures GetConfig(word) == c
  {
  }

  /** The pins of a level word have the levels of its configuration. */
  lemma LevelWordPins(c: Config)
    ensures var word := LevelWord(c);
            && IsHigh(word, ANTENNA_PIN) == (c.antenna == 1)
            && IsHigh(word, BASEBAND_PIN) == (c.basebandFilter == BASEBAND_BANDPASS)
            && IsHigh(word, DIO_0) == c.dio0 && IsHigh(word, DIO_1) == c.dio1 && IsHigh(word, DIO_6) == c.dio6
            && IsHigh(word, DIO_8) == c.dio8 && IsHigh(word, DIO_13) == c.dio13
            && IsHigh(word, PA_BIAS_PIN) == c.paBiasEnable
            && IsHigh(word, POWER_RANGE_PIN) == (c.powerRange == POWER_RANGE_HIGH)
            && IsHigh(word, RF_ENABLE_PIN) == c.rfEnable
            && IsHigh(word, SAW_PIN) == (c.rfFilter == LOWER_BAND)
  {
    hide IsHigh, WordOf;
    var antenna, filter := c.antenna == 1, c.basebandFilter == BASEBAND_BANDPASS;
    var range, band := c.powerRange == POWER_RANGE_HIGH, c.rfFilter == LOWER_BAND;
    LowPinsOfWord(antenna, filter, c.dio0, c.dio1, c.dio6, c.dio8, c.dio13, c.paBiasEnable, range, c.rfEnable, band);
    MiddlePinsOfWord(antenna, filter, c.dio0, c.dio1, c.dio6, c.dio8, c.dio13, c.paBiasEnable, range, c.rfEnable, band);
    HighPinsOfWord(antenna, filter, c.dio0, c.dio1, c.dio6, c.dio8, c.dio13, c.paBiasEnable, range, c.rfEnable, band);
  }

  /** Decoding an encoded valid configuration gives the configuration back. */
  lemma ConfigRoundTrip(c: Config)
    requires c.Valid()
    ensures GetConfig(LevelWord(c)) == c
  {
    LevelWordPins(c);
    hide IsHigh, LevelWord, GetConfig;
    DecodesTo(LevelWord(c), c);
  }

  predicate IsOutputPin(pin: bv32) {
    pin in {ANTENNA_PIN, BASEBAND_PIN, DIO_0, DIO_1, DIO_6, DIO_8, DIO_13, PA_BIAS_PIN, POWER_RANGE_PIN,
            RF_ENABLE_PIN, SAW_PIN}
  }

  function Keep(levels: bv32, pin: bv32): bv32 {
    levels & pin
  }

  lemma AllBitsBack(levels: bv32)
    ensures forall pin :: IsOutputPin(pin) ==> Bit(IsHigh(levels, pin), pin) == Keep(levels, pin)
  {
  }

  lemma KeepDistributes(x: bv32)
    ensures Or11(Keep(x, ANTENNA_PIN), Keep(x, BASEBAND_PIN), Keep(x, DIO_0), Keep(x, DIO_1), Keep(x, DIO_6),
                 Keep(x, DIO_8), Keep(x, DIO_13), Keep(x, PA_BIAS_PIN), Keep(x, POWER_RANGE_PIN),
                 Keep(x, RF_ENABLE_PIN), Keep(x, SAW_PIN))
         == x & OutputEnables()
  {
  }

  /** Encoding a decoded level word keeps the output pins and drops every other bit. */
  lemma LevelsRoundTrip(levels: bv32)
    ensures GetConfig(levels).Valid()
    ensures LevelWord(GetConfig(levels)) == levels & OutputEnables()
  {
    hide Bit, IsHigh, Keep, Or11, OutputEnables;
    AllBitsBack(levels);
    KeepDistributes(levels);
  }

  /** What ex10_gpio_get_levels answers for the two pointers it is given. */
  function LevelsError(c: Option<Config>, target: Option<bv32>): ErrorCode {
    if c.None? || target.None? then NullPointer else if c.value.Valid() then Success else BadParamValue
  }

  /** A bad pointer or value is reported and leaves the target alone; otherwise the target decodes to the argument. */
  method GetLevels(config: Option<Config>, target: Option<bv32>) returns (error: ErrorCode, levels: Option<bv32>)
    ensures error == LevelsError(config, target)
    ensures error == Success ==> levels == Some(LevelWord(config.value)) && GetConfig(levels.value) == config.value
    ensures error != Success ==> levels == target
  {
    levels := target;
    if config.None? || target.None? {
      return NullPointer, levels;
    }
    var c := config.value;
    if c.antenna != 1 && c.antenna != 2 {
      return BadParamValue, levels;
    }
    if c.basebandFilter != BASEBAND_HIGHPASS && c.basebandFilter != BASEBAND_BANDPASS {
      return BadParamValue, levels;
    }
    if c.powerRange != POWER_RANGE_LOW && c.powerRange != POWER_RANGE_HIGH {
      return BadParamValue, levels;
    }
    if c.rfFilter != LOWER_BAND && c.rfFilter != UPPER_BAND {
      return BadParamValue, levels;
    }
    ConfigRoundTrip(c);
    return Success, Some(LevelWord(c));
  }

  // ---- Set and clear masks ----

  /** The value of a struct GpioPinsSetClear. */
  datatype Pins = Pins(levelSet: bv32, levelClear: bv32, enableSet: bv32, enableClear: bv32) {
    function Join(q: Pins): Pins {
      Pins(Or(levelSet, q.levelSet), Or(levelClear, q.levelClear),
           Or(enableSet, q.enableSet), Or(enableClear, q.enableClear))
    }
  }

  const ZERO := Pins(0, 0, 0, 0)

  /** A call of one of the setters. */
  datatype Setter =
    | AntennaPort(port: nat)
    | BasebandFilter(filter: int)
    | PaBiasEnable(on: bool)
    | PaPowerRange(range: int)
    | RfPowerSupply(supply: bool)
    | TxRfFilter(band: int)
    | UnusedDio(bits: bv32)

  predicate Accepted(s: Setter) {
    match s
    case AntennaPort(port) => 0 < port <= ANTENNA_PORT_COUNT
    case BasebandFilter(f) => f in {BASEBAND_HIGHPASS, BASEBAND_BANDPASS}
    case PaPowerRange(r) => r in {POWER_RANGE_LOW, POWER_RANGE_HIGH}
    case TxRfFilter(b) => b in {LOWER_BAND, UPPER_BAND}
    case _ => true
  }

  /** Which arguments the setters take, written out. */
  lemma AcceptedArguments(n: nat, i: int)
    ensures Accepted(AntennaPort(n)) <==> n == 1 || n == 2
    ensures Accepted(BasebandFilter(i)) <==> i == 0 || i == 1
    ensures Accepted(PaPowerRange(i)) <==> i == 0 || i == 1
    ensures Accepted(TxRfFilter(i)) <==> i == 1 || i == 2
  {
  }

  /** The pins a setter drives. */
  function Mask(s: Setter): bv32 {
    match s
    case AntennaPort(_) => ANTENNA_PIN
    case BasebandFilter(_) => BASEBAND_PIN
    case PaBiasEnable(_) => PA_BIAS_PIN
    case PaPowerRange(_) => POWER_RANGE_PIN
    case RfPowerSupply(_) => RF_ENABLE_PIN
    case TxRfFilter(_) => SAW_PIN
    case UnusedDio(_) => DIO_0 | DIO_1 | DIO_6 | DIO_8 | DIO_13
  }

  /** The level it asks for on them; bits outside the mask are ignored. */
  function Level(s: Setter): bv32 {
    match s
    case AntennaPort(port) => Bit(port == 1, ANTENNA_PIN)
    case BasebandFilter(f) => Bit(f == BASEBAND_BANDPASS, BASEBAND_PIN)
    case PaBiasEnable(on) => Bit(on, PA_BIAS_PIN)
    case PaPowerRange(r) => Bit(r == POWER_RANGE_HIGH, POWER_RANGE_PIN)
    case RfPowerSupply(on) => Bit(on, RF_ENABLE_PIN)
    case TxRfFilter(b) => Bit(b == LOWER_BAND, SAW_PIN)
    case UnusedDio(bits) => bits
  }

  /** The pins a setter call drives high, and those it drives low. */
  function High(s: Setter): bv32 {
    if Accepted(s) then Level(s) & Mask(s) else 0
  }

  function Low(s: Setter): bv32 {
    if Accepted(s) then !Level(s) & Mask(s) else 0
  }

  /** What a setter call adds to the struct. */
  function Effect(s: Setter): Pins {
    if Accepted(s) then Pins(High(s), Low(s), Mask(s), 0) else ZERO
  }

  function RunSetters(p: Pins, run: seq<Setter>): Pins
    decreases |run|
  {
    if run == [] then p else RunSetters(p.Join(Effect(run[0])), run[1..])
  }

  /** In a run from an all-zero struct: every driven pin has a level, none is disabled, and IRQ_N is never touched. */
  ghost predicate Consistent(p: Pins) {
    && Or(p.levelSet, p.levelClear) == p.enableSet
    && p.enableClear == 0
    && And(p.enableSet, IRQ_N_PIN) == 0
    && And(p.enableSet, OutputEnables()) == p.enableSet
  }

  lemma EffectConsistent(s: Setter)
    ensures Consistent(Effect(s))
  {
  }

  lemma JoinConsistent(p: Pins, q: Pins)
    requires Consistent(p) && Consistent(q)
    ensures Consistent(p.Join(q))
  {
  }

  /** Every run of setters from an all-zero struct keeps it consistent. */
  lemma {:induction false} RunConsistent(p: Pins, run: seq<Setter>)
    requires Consistent(p)
    ensures Consistent(RunSetters(p, run))
    decreases |run|
  {
    if run != [] {
      EffectConsistent(run[0]);
      JoinConsistent(p, Effect(run[0]));
      RunConsistent(p.Join(Effect(run[0])), run[1..]);
    }
  }

  // ---- Word algebra ----

  function Or(a: bv32, b: bv32): bv32 {
    a | b
  }

  function And(a: bv32, b: bv32): bv32 {
    a & b
  }

  function Not(a: bv32): bv32 {
    !a
  }

  lemma AndCommutes(a: bv32, b: bv32)
    ensures And(a, b) == And(b, a)
  {
  }

  lemma AndDistributesRight(a: bv32, b: bv32, m: bv32)
    ensures And(Or(a, b), m) == Or(And(a, m), And(b, m))
  {
  }

  lemma AndDistributes(a: bv32, b: bv32, m: bv32)
    ensures And(Or(a, b), m) == Or(And(a, m), And(b, m))
    ensures And(m, Or(a, b)) == Or(And(m, a), And(m, b))
  {
    hide Or, And;
    AndDistributesRight(a, b, m);
    AndCommutes(m, Or(a, b));
    AndCommutes(m, a);
    AndCommutes(m, b);
  }

  lemma OrZero(a: bv32, b: bv32)
    ensures Or(a, b) == 0 <==> a == 0 && b == 0
    ensures Or(0, a) == a && Or(a, 0) == a
  {
  }

  // ---- Order and repetition do not matter ----

  lemma JoinLaws(p: Pins, q: Pins, r: Pins)
    ensures p.Join(q) == q.Join(p)
    ensures p.Join(q).Join(r) == p.Join(q.Join(r))
    ensures p.Join(p) == p && p.Join(ZERO) == p
  {
    WordLaws(p.levelSet, q.levelSet, r.levelSet);
    WordLaws(p.levelClear, q.levelClear, r.levelClear);
    WordLaws(p.enableSet, q.enableSet, r.enableSet);
    WordLaws(p.enableClear, q.enableClear, r.enableClear);
    hide Or;
  }

  lemma WordLaws(a: bv32, b: bv32, c: bv32)
    ensures Or(a, b) == Or(b, a)
    ensures Or(Or(a, b), c) == Or(a, Or(b, c))
    ensures Or(a, a) == a && Or(a, 0) == a
  {
  }

  /** A run only adds to what it starts from. */
  lemma {:induction false} RunJoins(p: Pins, run: seq<Setter>)
    ensures RunSetters(p, run) == p.Join(RunSetters(ZERO, run))
    decreases |run|
  {
    hide Pins.Join, Effect;
    if run == [] {
      JoinLaws(p, p, p);
    } else {
      var e := Effect(run[0]);
      RunJoins(p.Join(e), run[1..]);
      RunJoins(ZERO.Join(e), run[1..]);
      JoinLaws(e, ZERO, e);
      JoinLaws(p, e, RunSetters(ZERO, run[1..]));
    }
  }

  /** A call that a run contains can be made once more without effect. */
  lemma {:induction false} RunAbsorbsMember(run: seq<Setter>, s: Setter)
    requires s in run
    ensures RunSetters(ZERO, run).Join(Effect(s)) == RunSetters(ZERO, run)
    decreases |run|
  {
    hide Pins.Join, Effect;
    var e, rest := Effect(run[0]), RunSetters(ZERO, run[1..]);
    RunJoins(ZERO.Join(e), run[1..]);
    JoinLaws(e, ZERO, e);
    assert RunSetters(ZERO, run) == e.Join(rest);
    if s == run[0] {
      JoinLaws(e, rest, e);
      JoinLaws(rest, e, e);
    } else {
      RunAbsorbsMember(run[1..], s);
      JoinLaws(e, rest, Effect(s));
    }
  }

  lemma {:induction false} RunAbsorbsRun(big: seq<Setter>, small: seq<Setter>)
    requires forall s :: s in small ==> s in big
    ensures RunSetters(ZERO, big).Join(RunSetters(ZERO, small)) == RunSetters(ZERO, big)
    decreases |small|
  {
    hide Pins.Join, Effect;
    var b := RunSetters(ZERO, big);
    if small == [] {
      JoinLaws(b, b, b);
    } else {
      var e, rest := Effect(small[0]), RunSetters(ZERO, small[1..]);
      RunAbsorbsMember(big, small[0]);
      RunAbsorbsRun(big, small[1..]);
      RunJoins(ZERO.Join(e), small[1..]);
      JoinLaws(e, ZERO, e);
      JoinLaws(b, e, rest);
    }
  }

  /** Two runs that make the same set of calls, in any order and any number of times, give the same struct. */
  lemma OrderAndRepetitionIrrelevant(a: seq<Setter>, b: seq<Setter>)
    requires forall s :: s in a <==> s in b
    ensures RunSetters(ZERO, a) == RunSetters(ZERO, b)
  {
    RunAbsorbsRun(a, b);
    RunAbsorbsRun(b, a);
    JoinLaws(RunSetters(ZERO, a), RunSetters(ZERO, b), ZERO);
  }

  // ---- When the masks contradict each other ----

  /** Two calls of the run drive some pin in opposite directions. */
  ghost predicate Conflict(run: seq<Setter>) {
    exists s, t :: s in run && t in run && And(High(s), Low(t)) != 0
  }

  lemma {:induction false} ClearMeets(word: bv32, run: seq<Setter>)
    ensures And(word, RunSetters(ZERO, run).levelClear) == 0 <==> forall t :: t in run ==> And(word, Low(t)) == 0
    decreases |run|
  {
    hide Or, And, Low, High, Mask;
    if run == [] {
      AndZero(word);
    } else {
      var rest := RunSetters(ZERO, run[1..]);
      ClearMeets(word, run[1..]);
      RunFirst(run);
      AndDistributes(Low(run[0]), rest.levelClear, word);
      OrZero(And(word, Low(run[0])), And(word, rest.levelClear));
      assert forall t :: t in run <==> t == run[0] || t in run[1..];
    }
  }

  lemma {:induction false} SetMeets(word: bv32, run: seq<Setter>)
    ensures And(RunSetters(ZERO, run).levelSet, word) == 0 <==> forall s :: s in run ==> And(High(s), word) == 0
    decreases |run|
  {
    hide Or, And, Low, High, Mask;
    if run == [] {
      AndZero(word);
    } else {
      var rest := RunSetters(ZERO, run[1..]);
      SetMeets(word, run[1..]);
      RunFirst(run);
      AndDistributes(High(run[0]), rest.levelSet, word);
      OrZero(And(High(run[0]), word), And(rest.levelSet, word));
      assert forall s :: s in run <==> s == run[0] || s in run[1..];
    }
  }

  lemma AndZero(a: bv32)
    ensures And(a, 0) == 0 && And(0, a) == 0
  {
  }

  /** The levels of a run are those of its first call and of the rest. */
  lemma RunFirst(run: seq<Setter>)
    requires run != []
    ensures RunSetters(ZERO, run).levelSet == Or(High(run[0]), RunSetters(ZERO, run[1..]).levelSet)
    ensures RunSetters(ZERO, run).levelClear == Or(Low(run[0]), RunSetters(ZERO, run[1..]).levelClear)
  {
    hide Or, Low, High, Mask;
    RejectedDrivesNothing(run[0]);
    RunJoins(ZERO.Join(Effect(run[0])), run[1..]);
    JoinLaws(Effect(run[0]), ZERO, ZERO);
  }

  lemma RejectedDrivesNothing(s: Setter)
    ensures Effect(s).levelSet == High(s) && Effect(s).levelClear == Low(s)
  {
  }

  /** The set and clear masks of a run are disjoint exactly when no pin was driven both ways. */
  lemma DisjointUnlessConflict(run: seq<Setter>)
    ensures And(RunSetters(ZERO, run).levelSet, RunSetters(ZERO, run).levelClear) == 0 <==> !Conflict(run)
  {
    hide And, High, Low, RunSetters;
    var clear := RunSetters(ZERO, run).levelClear;
    SetMeets(clear, run);
    forall s | s in run
      ensures And(High(s), clear) == 0 <==> forall t :: t in run ==> And(High(s), Low(t)) == 0
    {
      ClearMeets(High(s), run);
    }
  }
}
