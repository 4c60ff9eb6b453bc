/**
  The IRQ_N delivery protocol of gpio_driver.c as a transition system.

  Every read or write of a variable that the interrupt handler, the IRQ thread and the
  application threads share is one step; the interrupt handler itself is a single step,
  because no thread runs while it does.  A schedule is any sequence of enabled steps, so
  a statement about all schedules is a statement about all interleavings.
 */
module IrqMachine {
  import opened Wrappers

  /** The IRQ thread, or one of arbitrarily many application threads. */
  datatype Tid = Irq | App(id: nat)

  /** The identity of a callback function; NULL is None. */
  type Callback = nat

  const EBUSY := 16

  /** The file statics, the binary semaphore and the owner-based, reentrant mutex. */
  datatype Shared = Shared(
    cb: Option<Callback>,
    flag: bool,
    count: nat,
    sem: bool,
    owner: Option<Tid>,
    depth: nat,
    irqEnabled: bool)

  /** What the IRQ thread does next. */
  datatype IrqPc = Take | Check | Zero | Lock | TestCallback | TestFlag | Call | Body | Unlock

  /** A call of one of the driver's functions. */
  datatype Op =
    | Register(f: Option<Callback>)
    | Deregister
    | MonitorEnable(enable: bool)
    | MonitorIsEnabled
    | IrqEnable(on: bool)

  datatype Ret = Void | Code(error: int) | Answer(enabled: bool)

  /** What a thread that is inside a driver call does next. */
  datatype OpPc =
    | Idle
    | WriteEnabled(op: Op)
    | Locking(op: Op)
    | ReadCb(op: Op)
    | WriteCb(op: Op)
    | WriteFlag(op: Op)
    | WriteCount(op: Op)
    | ReadFlag(op: Op)
    | Unlocking(op: Op, result: Ret)

  /** held counts the thread's irq_enable(false) calls not yet matched by irq_enable(true). */
  datatype Local = Local(pc: OpPc, held: nat, ret: Ret)

  datatype State = State(sh: Shared, irq: IrqPc, locals: map<Tid, Local>)

  datatype Step =
    | Edge                       // the falling edge of IRQ_N: the interrupt handler runs
    | IrqLoop                    // the IRQ thread executes the next action of its loop
    | Begin(t: Tid, call: Op)    // a thread enters a driver function
    | OpStep(th: Tid)            // a thread executes the next action of the function it is in

  const InitShared := Shared(None, false, 0, false, None, 0, false)
  const Init := State(InitShared, Take, map[])

  function LocalOf(s: State, t: Tid): Local {
    if t in s.locals then s.locals[t] else Local(Idle, 0, Void)
  }

  function WithLocal(s: State, t: Tid, sh: Shared, l: Local): State {
    State(sh, s.irq, s.locals[t := l])
  }

  // ---- Kernel objects ----

  predicate CanLock(sh: Shared, t: Tid) {
    sh.owner == None || sh.owner == Some(t)
  }

  function MutexLock(sh: Shared, t: Tid): Shared
    requires CanLock(sh, t)
  {
    sh.(owner := Some(t), depth := sh.depth + 1)
  }

  /** Unlocking a mutex that the caller does not own has no effect. */
  function MutexUnlock(sh: Shared, t: Tid): Shared {
    if sh.owner != Some(t) then sh
    else if sh.depth <= 1 then sh.(owner := None, depth := 0)
    else sh.(depth := sh.depth - 1)
  }

  // ---- The interrupt handler ----

  predicate Accepts(sh: Shared) {
    sh.flag && sh.cb.Some?
  }

  function HandleEdge(sh: Shared): Shared {
    if Accepts(sh) then sh.(count := sh.count + 1, sem := true) else sh
  }

  // ---- The IRQ thread ----

  predicate LoopEnabled(s: State) {
    match s.irq
    case Take => s.sh.sem
    case Lock => CanLock(s.sh, Irq)
    case Body => LocalOf(s, Irq).pc.Idle? && LocalOf(s, Irq).held == 0
    case _ => true
  }

  function LoopStep(s: State): State
    requires LoopEnabled(s)
  {
    match s.irq
    case Take => s.(sh := s.sh.(sem := false), irq := Check)
    case Check => s.(irq := if s.sh.count == 0 then Take else Zero)
    case Zero => s.(sh := s.sh.(count := 0), irq := Lock)
    case Lock => s.(sh := MutexLock(s.sh, Irq), irq := TestCallback)
    case TestCallback => s.(irq := if s.sh.cb.Some? then TestFlag else Unlock)
    case TestFlag => s.(irq := if s.sh.flag then Call else Unlock)
    case Call => s.(irq := Body)
    case Body => s.(irq := Unlock)
    case Unlock => s.(sh := MutexUnlock(s.sh, Irq), irq := Take)
  }

  // ---- Driver calls ----

  /** The IRQ thread calls the driver only from the callback body, and never gives up more than it took. */
  predicate BeginEnabled(s: State, t: Tid, op: Op) {
    && LocalOf(s, t).pc.Idle?
    && (t == Irq ==> s.irq == Body && (op == IrqEnable(true) ==> LocalOf(s, t).held > 0))
  }

  function BeginCall(s: State, t: Tid, op: Op): State {
    WithLocal(s, t, s.sh, LocalOf(s, t).(pc := if op.IrqEnable? then WriteEnabled(op) else Locking(op)))
  }

  predicate OpEnabled(s: State, t: Tid) {
    CanAct(s.sh, LocalOf(s, t).pc, t)
  }

  function AfterLock(op: Op): OpPc {
    match op
    case Register(_) => ReadCb(op)
    case Deregister => ReadCb(op)
    case MonitorEnable(_) => WriteCount(op)
    case MonitorIsEnabled => ReadFlag(op)
    case IrqEnable(_) => Idle
  }

  predicate CanAct(sh: Shared, pc: OpPc, t: Tid) {
    !pc.Idle? && (pc.Locking? ==> CanLock(sh, t))
  }

  /** The next action of a thread inside a driver call: it touches only the shared state and the thread itself. */
  function CallAction(sh: Shared, l: Local, t: Tid): (Shared, Local)
    requires CanAct(sh, l.pc, t)
  {
    match l.pc
    case Idle => (sh, l)
    case WriteEnabled(op) =>
      (sh.(irqEnabled := op.IrqEnable? && op.on),
       l.(pc := if op == IrqEnable(true) then Unlocking(op, Void) else Locking(op)))
    case Locking(op) =>
      (MutexLock(sh, t),
       if op.IrqEnable? then Local(Idle, l.held + 1, Void) else l.(pc := AfterLock(op)))
    case ReadCb(op) =>
      (sh, l.(pc := if op.Register? then
                      if sh.cb == None then WriteCb(op) else Unlocking(op, Code(EBUSY))
                    else
                      if sh.cb == None then Unlocking(op, Code(0)) else WriteFlag(op)))
    case WriteCb(op) =>
      (sh.(cb := if op.Register? then op.f else None),
       l.(pc := if op.Register? then WriteFlag(op) else WriteCount(op)))
    case WriteFlag(op) =>
      (sh.(flag := op.Register? || (op.MonitorEnable? && op.enable)),
       l.(pc := if op.Register? then WriteCount(op)
                else if op.Deregister? then WriteCb(op)
                else Unlocking(op, Void)))
    case WriteCount(op) =>
      (sh.(count := 0),
       l.(pc := if op.MonitorEnable? then WriteFlag(op) else Unlocking(op, Code(0))))
    case ReadFlag(op) =>
      (sh, l.(pc := Unlocking(op, Answer(sh.flag))))
    case Unlocking(op, result) =>
      (MutexUnlock(sh, t),
       Local(Idle, if op.IrqEnable? && l.held > 0 then l.held - 1 else l.held, result))
  }

  function CallStep(s: State, t: Tid): State
    requires OpEnabled(s, t)
  {
    var next := CallAction(s.sh, LocalOf(s, t), t);
    WithLocal(s, t, next.0, next.1)
  }

  // ---- Runs ----

  predicate Enabled(s: State, step: Step) {
    match step
    case Edge => true
    case IrqLoop => LoopEnabled(s)
    case Begin(t, op) => BeginEnabled(s, t, op)
    case OpStep(t) => OpEnabled(s, t)
  }

  function Next(s: State, step: Step): State
    requires Enabled(s, step)
  {
    match step
    case Edge => s.(sh := HandleEdge(s.sh))
    case IrqLoop => LoopStep(s)
    case Begin(t, op) => BeginCall(s, t, op)
    case OpStep(t) => CallStep(s, t)
  }

  predicate Admissible(s: State, run: seq<Step>)
    decreases |run|
  {
    run == [] || (Enabled(s, run[0]) && Admissible(Next(s, run[0]), run[1..]))
  }

  function Exec(s: State, run: seq<Step>): State
    requires Admissible(s, run)
    decreases |run|
  {
    if run == [] then s else Exec(Next(s, run[0]), run[1..])
  }

  /** The weights of all steps of a run, each taken in the state the step starts from. */
  function Total(s: State, run: seq<Step>, weight: (State, Step) -> nat): nat
    requires Admissible(s, run)
    decreases |run|
  {
    if run == [] then 0 else weight(s, run[0]) + Total(Next(s, run[0]), run[1..], weight)
  }

  // ---- What a run is measured by ----

  function AcceptedEdge(s: State, step: Step): nat {
    if step.Edge? && Accepts(s.sh) then 1 else 0
  }

  /** A call through the callback pointer starts. */
  function CallStart(s: State, step: Step): nat {
    if step.IrqLoop? && s.irq == Call then 1 else 0
  }

  function ClearedByIrqThread(s: State, step: Step): nat {
    if step.IrqLoop? && s.irq == Zero then s.sh.count else 0
  }

  function ClearedByControl(s: State, step: Step): nat {
    if step.OpStep? && LocalOf(s, step.th).pc.WriteCount? then s.sh.count else 0
  }

  /** Actions of the IRQ thread's own loop, the body of the callback excepted. */
  function LoopAction(s: State, step: Step): nat {
    if step.IrqLoop? then 1 else 0
  }

  /** A control call clears the counter, writes the callback pointer or lowers the enable flag. */
  function Revocation(s: State, step: Step): nat {
    if step.OpStep? && (var pc := LocalOf(s, step.th).pc;
                        || pc.WriteCb? || pc.WriteCount?
                        || (pc.WriteFlag? && !pc.op.Register? && pc.op != MonitorEnable(true))) then 1 else 0
  }

  /** A register call stores its callback. */
  function RegisterWrite(s: State, step: Step): nat {
    if step.OpStep? && (var pc := LocalOf(s, step.th).pc; pc.WriteCb? && pc.op.Register?) then 1 else 0
  }

  /** A register call or irq_monitor_callback_enable(true) raises the enable flag. */
  function FlagRaise(s: State, step: Step): nat {
    if step.OpStep? && (var pc := LocalOf(s, step.th).pc;
                        pc.WriteFlag? && (pc.op.Register? || pc.op == MonitorEnable(true))) then 1 else 0
  }

  /** Splitting a run, which is how a statement about the rest of a run is made. */
  lemma {:induction false} RunSplit(s: State, a: seq<Step>, b: seq<Step>)
    requires Admissible(s, a + b)
    ensures Admissible(s, a) && Admissible(Exec(s, a), b)
    ensures Exec(s, a + b) == Exec(Exec(s, a), b)
    decreases |a|
  {
    if a == [] {
      assert a + b == b;
    } else {
      assert (a + b)[1..] == a[1..] + b;
      RunSplit(Next(s, a[0]), a[1..], b);
    }
  }

  /** The state of a run from start-up before its step i; the rest of the run continues from there. */
  ghost function StateAt(run: seq<Step>, i: nat): (s: State)
    requires Admissible(Init, run) && i <= |run|
    ensures Admissible(s, run[i..])
  {
    assert run == run[..i] + run[i..];
    RunSplit(Init, run[..i], run[i..]);
    Exec(Init, run[..i])
  }

  /** The state before step i is reached by the first i steps, and step i leads from it to the next one. */
  lemma StateAtNext(run: seq<Step>, i: nat)
    requires Admissible(Init, run) && i < |run|
    ensures Admissible(Init, run[..i]) && StateAt(run, i) == Exec(Init, run[..i])
    ensures Enabled(StateAt(run, i), run[i])
    ensures StateAt(run, i + 1) == Next(StateAt(run, i), run[i])
  {
    assert run == run[..i] + run[i..];
    RunSplit(Init, run[..i], run[i..]);
    assert run[i..][0] == run[i];
    assert run[..i + 1] == run[..i] + [run[i]];
    assert run == run[..i + 1] + run[i + 1..];
    RunSplit(Init, run[..i + 1], run[i + 1..]);
    RunSplit(Init, run[..i], [run[i]]);
    assert Exec(StateAt(run, i), [run[i]]) == Next(StateAt(run, i), run[i]);
  }

  lemma {:induction false} RunJoin(s: State, a: seq<Step>, b: seq<Step>)
    requires Admissible(s, a) && Admissible(Exec(s, a), b)
    ensures Admissible(s, a + b) && Exec(s, a + b) == Exec(Exec(s, a), b)
    decreases |a|
  {
    if a == [] {
      assert a + b == b;
    } else {
      assert (a + b)[1..] == a[1..] + b;
      RunJoin(Next(s, a[0]), a[1..], b);
    }
  }

  lemma {:induction false} TotalJoin(s: State, a: seq<Step>, b: seq<Step>, weight: (State, Step) -> nat)
    requires Admissible(s, a) && Admissible(Exec(s, a), b) && Admissible(s, a + b)
    ensures Total(s, a + b, weight) == Total(s, a, weight) + Total(Exec(s, a), b, weight)
    decreases |a|
  {
    if a == [] {
      assert a + b == b;
    } else {
      assert (a + b)[1..] == a[1..] + b;
      TotalJoin(Next(s, a[0]), a[1..], b, weight);
    }
  }
}
