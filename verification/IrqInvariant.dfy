/**
  What holds in every reachable state of the IRQ_N protocol: the mutex is held by exactly
  the thread whose program counter says so, the callback pointer and the enable flag
  change only under it, and a non-zero interrupt counter always has a wake-up behind it.
 */
module IrqInvariant {
  import opened IrqMachine
  import opened Wrappers

  // ---- Who holds the mutex ----

  predicate OpHolds(pc: OpPc) {
    match pc
    case Idle => false
    case WriteEnabled(_) => false
    case Locking(_) => false
    case Unlocking(op, _) => !op.IrqEnable?
    case _ => true
  }

  predicate LoopHolds(pc: IrqPc) {
    pc in {TestCallback, TestFlag, Call, Body, Unlock}
  }

  /** How many times thread t has locked the mutex without unlocking it, read off its program counters. */
  function Holds(s: State, t: Tid): nat {
    LocalOf(s, t).held
    + (if OpHolds(LocalOf(s, t).pc) then 1 else 0)
    + (if t == Irq && LoopHolds(s.irq) then 1 else 0)
  }

  ghost predicate MutexInv(s: State) {
    match s.sh.owner
    case None => s.sh.depth == 0 && forall u :: Holds(s, u) == 0
    case Some(t) => s.sh.depth == Holds(s, t) > 0 && forall u :: u != t ==> Holds(s, u) == 0
  }

  // ---- What a thread inside a driver call knows about the shared state ----

  predicate CallKnows(sh: Shared, pc: OpPc) {
    match pc
    case Idle => true
    case WriteEnabled(op) => op.IrqEnable?
    case Locking(op) => op != IrqEnable(true)
    case ReadCb(op) => op.Register? || op.Deregister?
    case WriteCb(op) =>
      || (op.Register? && sh.cb == None)
      || (op.Deregister? && !sh.flag)
    case WriteFlag(op) =>
      || (op.Register? && sh.cb == op.f)
      || op.Deregister?
      || op.MonitorEnable?
    case WriteCount(op) =>
      || (op.Register? && sh.cb == op.f && sh.flag)
      || (op.Deregister? && sh.cb == None && !sh.flag)
      || op.MonitorEnable?
    case ReadFlag(op) => op.MonitorIsEnabled?
    case Unlocking(op, result) =>
      match op
      case Register(f) =>
        || (result == Code(0) && sh.cb == f && sh.flag)
        || (result == Code(EBUSY) && sh.cb.Some?)
      case Deregister => result == Code(0) && sh.cb == None
      case MonitorEnable(b) => result == Void && sh.flag == b
      case MonitorIsEnabled => result == Answer(sh.flag)
      case IrqEnable(on) => on && result == Void
  }

  ghost predicate CallsInv(s: State) {
    forall t :: CallKnows(s.sh, LocalOf(s, t).pc)
  }

  // ---- The IRQ thread ----

  predicate LoopInv(s: State) {
    var l := LocalOf(s, Irq);
    && (s.irq != Body ==> l.pc.Idle? && l.held == 0)
    && (l.pc.Unlocking? && l.pc.op == IrqEnable(true) ==> l.held > 0)
    && (l.pc == WriteEnabled(IrqEnable(true)) ==> l.held > 0)
    && (s.irq in {TestFlag, Call} ==> s.sh.cb.Some?)
    && (s.irq == Call ==> s.sh.flag)
  }

  /** A counted interrupt is never stranded: the semaphore is up, or the IRQ thread is still going to look. */
  predicate WakeupInv(s: State) {
    s.sh.count > 0 ==> s.sh.sem || s.irq in {Check, Zero}
  }

  ghost predicate Inv(s: State) {
    MutexInv(s) && CallsInv(s) && LoopInv(s) && WakeupInv(s)
  }

  lemma InitInv()
    ensures Inv(Init)
  {
  }

  lemma OthersHold(s: State, s': State, t: Tid)
    requires s'.irq == s.irq
    requires forall u :: u != t ==> LocalOf(s', u) == LocalOf(s, u)
    ensures forall u :: u != t ==> Holds(s', u) == Holds(s, u)
  {
  }

  lemma EdgeKeepsInv(s: State)
    requires Inv(s)
    ensures Inv(Next(s, Edge))
  {
    var s' := Next(s, Edge);
    forall u ensures Holds(s', u) == Holds(s, u) && CallKnows(s'.sh, LocalOf(s', u).pc) {
      assert CallKnows(s.sh, LocalOf(s, u).pc);
    }
  }

  lemma LoopKeepsMutexInv(s: State)
    requires Inv(s) && LoopEnabled(s)
    ensures MutexInv(Next(s, IrqLoop))
  {
    var s' := Next(s, IrqLoop);
    assert Holds(s, Irq) > 0 ==> s.sh.owner == Some(Irq);
    forall u | u != Irq ensures Holds(s', u) == Holds(s, u) {
    }
  }

  lemma LoopKeepsInv(s: State)
    requires Inv(s) && LoopEnabled(s)
    ensures Inv(Next(s, IrqLoop))
  {
    var s' := Next(s, IrqLoop);
    LoopKeepsMutexInv(s);
    forall u ensures CallKnows(s'.sh, LocalOf(s', u).pc) {
      assert CallKnows(s.sh, LocalOf(s, u).pc);
    }
  }

  lemma BeginKeepsInv(s: State, t: Tid, op: Op)
    requires Inv(s) && BeginEnabled(s, t, op)
    ensures Inv(Next(s, Begin(t, op)))
  {
    var s' := Next(s, Begin(t, op));
    forall u ensures Holds(s', u) == Holds(s, u) && CallKnows(s'.sh, LocalOf(s', u).pc) {
      assert CallKnows(s.sh, LocalOf(s, u).pc);
    }
  }

  /** Only the owner of the mutex is at a place where it writes the callback pointer or the flag. */
  lemma HolderOwns(s: State, t: Tid)
    requires MutexInv(s) && Holds(s, t) > 0
    ensures s.sh.owner == Some(t)
    ensures forall u :: u != t ==> Holds(s, u) == 0
  {
  }

  /** A call step locks once, unlocks once, or leaves the mutex and its holder count alone. */
  lemma CallChangesHolds(s: State, t: Tid)
    requires Inv(s) && OpEnabled(s, t)
    ensures var s', pc := Next(s, OpStep(t)), LocalOf(s, t).pc;
            if pc.Locking? then
              s'.sh.owner == Some(t) && s'.sh.depth == s.sh.depth + 1 && Holds(s', t) == Holds(s, t) + 1
            else if pc.Unlocking? then
              && s'.sh.owner == MutexUnlock(s.sh, t).owner && s'.sh.depth == MutexUnlock(s.sh, t).depth
              && Holds(s', t) == if Holds(s, t) > 0 then Holds(s, t) - 1 else 0
            else
              s'.sh.owner == s.sh.owner && s'.sh.depth == s.sh.depth && Holds(s', t) == Holds(s, t)
  {
    assert CallKnows(s.sh, LocalOf(s, t).pc);
  }

  lemma CallKeepsMutexInv(s: State, t: Tid)
    requires Inv(s) && OpEnabled(s, t)
    ensures MutexInv(Next(s, OpStep(t)))
  {
    var s' := Next(s, OpStep(t));
    CallChangesHolds(s, t);
    OthersHold(s, s', t);
    MutexFollowsHolds(s, s', t, LocalOf(s, t).pc);
  }

  lemma MutexFollowsHolds(s: State, s': State, t: Tid, pc: OpPc)
    requires MutexInv(s)
    requires pc.Locking? ==> CanLock(s.sh, t)
    requires forall u :: u != t ==> Holds(s', u) == Holds(s, u)
    requires if pc.Locking? then
               s'.sh.owner == Some(t) && s'.sh.depth == s.sh.depth + 1 && Holds(s', t) == Holds(s, t) + 1
             else if pc.Unlocking? then
               && s'.sh.owner == MutexUnlock(s.sh, t).owner && s'.sh.depth == MutexUnlock(s.sh, t).depth
               && Holds(s', t) == if Holds(s, t) > 0 then Holds(s, t) - 1 else 0
             else
               s'.sh.owner == s.sh.owner && s'.sh.depth == s.sh.depth && Holds(s', t) == Holds(s, t)
    ensures MutexInv(s')
  {
  }

  lemma CallKeepsCallsInv(s: State, t: Tid)
    requires Inv(s) && OpEnabled(s, t)
    ensures CallsInv(Next(s, OpStep(t)))
  {
    var s' := Next(s, OpStep(t));
    assert CallKnows(s.sh, LocalOf(s, t).pc);
    forall u ensures CallKnows(s'.sh, LocalOf(s', u).pc) {
      assert CallKnows(s.sh, LocalOf(s, u).pc);
      if u != t && OpHolds(LocalOf(s, t).pc) {
        HolderOwns(s, t);
        assert Holds(s, u) == 0;
      }
    }
  }

  lemma CallKeepsLoopInv(s: State, t: Tid)
    requires Inv(s) && OpEnabled(s, t)
    ensures LoopInv(Next(s, OpStep(t))) && WakeupInv(Next(s, OpStep(t)))
  {
    assert CallKnows(s.sh, LocalOf(s, t).pc);
    if t != Irq && OpHolds(LocalOf(s, t).pc) {
      HolderOwns(s, t);
      assert Holds(s, Irq) == 0;
    }
  }

  /** Every step of every thread keeps the invariant. */
  lemma StepKeepsInv(s: State, step: Step)
    requires Inv(s) && Enabled(s, step)
    ensures Inv(Next(s, step))
  {
    match step
    case Edge => EdgeKeepsInv(s);
    case IrqLoop => LoopKeepsInv(s);
    case Begin(t, op) => BeginKeepsInv(s, t, op);
    case OpStep(t) =>
      CallKeepsMutexInv(s, t);
      CallKeepsCallsInv(s, t);
      CallKeepsLoopInv(s, t);
  }

  /** The invariant holds after every run, whatever the interleaving. */
  lemma {:induction false} RunKeepsInv(s: State, run: seq<Step>)
    requires Inv(s) && Admissible(s, run)
    ensures Inv(Exec(s, run))
    decreases |run|
  {
    if run != [] {
      StepKeepsInv(s, run[0]);
      RunKeepsInv(Next(s, run[0]), run[1..]);
    }
  }
}
