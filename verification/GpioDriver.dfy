/**
  gpio_driver.c in its own form: file statics that the handler, the control functions and
  one pass of the IRQ thread update in place.  Each method is proved against what the call
  does to the shared state when it is not interrupted, and that effect is proved to be what
  the transition system reaches when only the calling thread is scheduled.
 */
module GpioDriver {
  import opened IrqMachine
  import opened IrqInvariant
  import opened IrqDelivery
  import opened Wrappers

  /** What one uninterrupted driver call does, and what it returns. */
  function CallEffect(sh: Shared, t: Tid, op: Op): (Shared, Ret) {
    match op
    case Register(f) =>
      if sh.cb == None then (sh.(cb := f, flag := true, count := 0), Code(0)) else (sh, Code(EBUSY))
    case Deregister =>
      (if sh.cb == None then sh else sh.(cb := None, flag := false, count := 0), Code(0))
    case MonitorEnable(b) => (sh.(flag := b, count := 0), Void)
    case MonitorIsEnabled => (sh, Answer(sh.flag))
    case IrqEnable(on) =>
      var written := sh.(irqEnabled := on);
      (if on then MutexUnlock(written, t) else written.(owner := Some(t), depth := sh.depth + 1), Void)
  }

  /** The number of actions a call takes after it has been entered. */
  function CallLength(sh: Shared, op: Op): nat {
    match op
    case Register(_) => if sh.cb == None then 6 else 3
    case Deregister => if sh.cb == None then 3 else 6
    case MonitorEnable(_) => 4
    case MonitorIsEnabled => 3
    case IrqEnable(_) => 2
  }

  predicate MutexOk(sh: Shared) {
    sh.owner == None <==> sh.depth == 0
  }

  lemma OpRepeat(s: State, t: Tid, n: nat)
    requires OpEnabled(s, t) && Admissible(CallStep(s, t), Repeat(OpStep(t), n))
    ensures Admissible(s, Repeat(OpStep(t), n + 1))
    ensures Exec(s, Repeat(OpStep(t), n + 1)) == Exec(CallStep(s, t), Repeat(OpStep(t), n))
  {
  }

  /** The locals after an uninterrupted call. */
  function CallLocal(l: Local, sh: Shared, t: Tid, op: Op): Local {
    Local(Idle,
          if op == IrqEnable(false) then l.held + 1 else if op.IrqEnable? && l.held > 0 then l.held - 1 else l.held,
          CallEffect(sh, t, op).1)
  }

  /** Thread t, acting alone n times, takes (sh, l) to end. */
  predicate Acts(sh: Shared, l: Local, t: Tid, n: nat, end: (Shared, Local))
    decreases n
  {
    if n == 0 then (sh, l) == end
    else CanAct(sh, l.pc, t) && Acts(CallAction(sh, l, t).0, CallAction(sh, l, t).1, t, n - 1, end)
  }

  /** What a thread does alone it does in the protocol when only it is scheduled. */
  lemma {:induction false} ActsRun(s: State, t: Tid, n: nat, end: (Shared, Local))
    requires t in s.locals && Acts(s.sh, s.locals[t], t, n, end)
    ensures Admissible(s, Repeat(OpStep(t), n))
    ensures Exec(s, Repeat(OpStep(t), n)) == WithLocal(s, t, end.0, end.1)
    decreases n
  {
    if n == 0 {
      assert s.locals[t := end.1] == s.locals;
    } else {
      var s' := CallStep(s, t);
      ActsRun(s', t, n - 1, end);
      OpRepeat(s, t, n - 1);
      assert s'.locals[t := end.1] == s.locals[t := end.1];
    }
  }

  /** The shared state and the thread when an uninterrupted call is over. */
  function Done(sh: Shared, l: Local, t: Tid, op: Op): (Shared, Local) {
    (CallEffect(sh, t, op).0, CallLocal(l, sh, t, op))
  }

  /** The thread as it is right after it has entered the call. */
  function Entered(l: Local, op: Op): Local {
    l.(pc := if op.IrqEnable? then WriteEnabled(op) else Locking(op))
  }

  lemma LongCallActs(sh: Shared, l: Local, t: Tid, op: Op)
    requires MutexOk(sh) && CanLock(sh, t) && CallLength(sh, op) == 6
    ensures Acts(sh, Entered(l, op), t, 6, Done(sh, l, t, op))
  {
    var a1 := CallAction(sh, Entered(l, op), t);
    var a2 := CallAction(a1.0, a1.1, t);
    var a3 := CallAction(a2.0, a2.1, t);
    var a4 := CallAction(a3.0, a3.1, t);
    var a5 := CallAction(a4.0, a4.1, t);
    assert Acts(a5.0, a5.1, t, 1, Done(sh, l, t, op));
    assert Acts(a3.0, a3.1, t, 3, Done(sh, l, t, op));
    assert Acts(a1.0, a1.1, t, 5, Done(sh, l, t, op));
  }

  lemma ShortCallActs(sh: Shared, l: Local, t: Tid, op: Op)
    requires MutexOk(sh) && (op != IrqEnable(true) ==> CanLock(sh, t)) && CallLength(sh, op) < 6
    ensures Acts(sh, Entered(l, op), t, CallLength(sh, op), Done(sh, l, t, op))
  {
    var a1 := CallAction(sh, Entered(l, op), t);
    var a2 := CallAction(a1.0, a1.1, t);
    assert Acts(a2.0, a2.1, t, CallLength(sh, op) - 2, Done(sh, l, t, op));
    assert Acts(a1.0, a1.1, t, CallLength(sh, op) - 1, Done(sh, l, t, op));
  }

  /**
    The effect of a call is what the protocol reaches when only the calling thread runs:
    the method bodies below and the step-by-step protocol describe the same driver.
   */
  lemma CallRefines(s: State, t: Tid, op: Op)
    requires MutexOk(s.sh) && BeginEnabled(s, t, op)
    requires op != IrqEnable(true) ==> CanLock(s.sh, t)
    ensures var run := [Begin(t, op)] + Repeat(OpStep(t), CallLength(s.sh, op));
            && Admissible(s, run)
            && Exec(s, run) == WithLocal(s, t, CallEffect(s.sh, t, op).0, CallLocal(LocalOf(s, t), s.sh, t, op))
  {
    var n, end := CallLength(s.sh, op), Done(s.sh, LocalOf(s, t), t, op);
    var s0 := BeginCall(s, t, op);
    if n == 6 {
      LongCallActs(s.sh, LocalOf(s, t), t, op);
    } else {
      ShortCallActs(s.sh, LocalOf(s, t), t, op);
    }
    ActsRun(s0, t, n, end);
    assert s0.locals[t := end.1] == s.locals[t := end.1];
    assert ([Begin(t, op)] + Repeat(OpStep(t), n))[1..] == Repeat(OpStep(t), n);
  }

  // ---- The callback body ----

  /** The driver calls of a callback that unlocks no more than it locked. */
  predicate Balanced(body: seq<Op>, held: nat) {
    if body == [] then held == 0
    else if body[0] == IrqEnable(true) then held > 0 && Balanced(body[1..], held - 1)
    else Balanced(body[1..], if body[0] == IrqEnable(false) then held + 1 else held)
  }

  function BodyEffect(sh: Shared, body: seq<Op>): Shared
    decreases |body|
  {
    if body == [] then sh else BodyEffect(CallEffect(sh, Irq, body[0]).0, body[1..])
  }

  /** A balanced callback leaves the IRQ thread's own hold on the mutex in place. */
  lemma {:induction false} BodyKeepsLock(sh: Shared, body: seq<Op>, held: nat)
    requires Balanced(body, held)
    requires sh.owner == Some(Irq) && sh.depth == held + 1
    ensures BodyEffect(sh, body).owner == Some(Irq) && BodyEffect(sh, body).depth == 1
    decreases |body|
  {
    if body != [] {
      BodyKeepsLock(CallEffect(sh, Irq, body[0]).0, body[1..],
                    if body[0] == IrqEnable(true) then held - 1
                    else if body[0] == IrqEnable(false) then held + 1 else held);
    }
  }

  lemma {:induction false} BodySnoc(sh: Shared, body: seq<Op>, n: nat)
    requires n < |body|
    ensures BodyEffect(sh, body[..n + 1]) == CallEffect(BodyEffect(sh, body[..n]), Irq, body[n]).0
    decreases n
  {
    if n > 0 {
      assert body[..n + 1][1..] == body[1..][..n];
      assert body[..n][1..] == body[1..][..n - 1];
      BodySnoc(CallEffect(sh, Irq, body[0]).0, body[1..], n - 1);
    } else {
      assert body[..1][1..] == [];
    }
  }

  /** After k calls of a balanced body the IRQ thread still owns the mutex. */
  lemma {:induction false} BodyOwnsLock(sh: Shared, body: seq<Op>, held: nat, k: nat)
    requires Balanced(body, held) && k <= |body|
    requires sh.owner == Some(Irq) && sh.depth == held + 1
    ensures BodyEffect(sh, body[..k]).owner == Some(Irq) && BodyEffect(sh, body[..k]).depth > 0
    decreases |body|
  {
    if k > 0 {
      assert body[..k][1..] == body[1..][..k - 1];
      BodyOwnsLock(CallEffect(sh, Irq, body[0]).0, body[1..],
                   if body[0] == IrqEnable(true) then held - 1
                   else if body[0] == IrqEnable(false) then held + 1 else held, k - 1);
    }
  }

  /** What one pass of the IRQ thread's loop does when nothing interrupts it. */
  function PassEffect(sh: Shared, body: seq<Op>): Shared {
    var taken := sh.(sem := false);
    if sh.count == 0 then taken
    else
      var cleared := taken.(count := 0);
      if Accepts(sh) then BodyEffect(OwnedByIrq(cleared), body).(owner := None, depth := 0) else cleared
  }

  function OwnedByIrq(sh: Shared): Shared {
    sh.(owner := Some(Irq), depth := 1)
  }

  /** The steps of the callback body when only the IRQ thread is scheduled. */
  function BodySteps(sh: Shared, body: seq<Op>): seq<Step>
    decreases |body|
  {
    if body == [] then []
    else [Begin(Irq, body[0])] + Repeat(OpStep(Irq), CallLength(sh, body[0]))
         + BodySteps(CallEffect(sh, Irq, body[0]).0, body[1..])
  }

  /** The IRQ thread is in the callback, between two driver calls, with the given number of open irq_enable(false). */
  predicate InBody(s: State, held: nat) {
    && s.irq == Body && s.sh.owner == Some(Irq) && s.sh.depth == held + 1
    && LocalOf(s, Irq).pc.Idle? && LocalOf(s, Irq).held == held
  }

  lemma {:induction false} BodyRefines(s: State, body: seq<Op>, held: nat)
    requires InBody(s, held) && Balanced(body, held)
    ensures Admissible(s, BodySteps(s.sh, body))
    ensures InBody(Exec(s, BodySteps(s.sh, body)), 0)
    ensures Exec(s, BodySteps(s.sh, body)).sh == BodyEffect(s.sh, body)
    decreases |body|
  {
    if body != [] {
      var op := body[0];
      var call := [Begin(Irq, op)] + Repeat(OpStep(Irq), CallLength(s.sh, op));
      CallRefines(s, Irq, op);
      var s' := Exec(s, call);
      BodyRefines(s', body[1..], LocalOf(s', Irq).held);
      RunJoin(s, call, BodySteps(s'.sh, body[1..]));
    }
  }

  lemma LoopMore(s: State, n: nat)
    requires LoopEnabled(s) && Admissible(LoopStep(s), Repeat(IrqLoop, n))
    ensures Admissible(s, Repeat(IrqLoop, n + 1))
    ensures Exec(s, Repeat(IrqLoop, n + 1)) == Exec(LoopStep(s), Repeat(IrqLoop, n))
  {
  }

  /** The state in which the IRQ thread has just taken the lock. */
  function Locked(s: State): State {
    State(OwnedByIrq(s.sh.(sem := false, count := 0)), TestCallback, s.locals)
  }

  predicate ReadyToPass(s: State) {
    && s.irq == Take && s.sh.sem && s.sh.owner == None && s.sh.depth == 0
    && LocalOf(s, Irq).pc.Idle? && LocalOf(s, Irq).held == 0
  }

  lemma UpToLock(s: State, n: nat)
    requires ReadyToPass(s) && s.sh.count > 0
    requires Admissible(Locked(s), Repeat(IrqLoop, n))
    ensures Admissible(s, Repeat(IrqLoop, n + 4))
    ensures Exec(s, Repeat(IrqLoop, n + 4)) == Exec(Locked(s), Repeat(IrqLoop, n))
  {
    var s1 := LoopStep(s);
    var s2 := LoopStep(s1);
    var s3 := LoopStep(s2);
    assert LoopStep(s3) == Locked(s);
    LoopMore(s3, n);
    LoopMore(s2, n + 1);
    LoopMore(s1, n + 2);
    LoopMore(s, n + 3);
  }

  /** The steps of one pass when only the IRQ thread is scheduled. */
  function PassSteps(sh: Shared, body: seq<Op>): seq<Step> {
    if sh.count == 0 then Repeat(IrqLoop, 2)
    else if sh.cb == None then Repeat(IrqLoop, 6)
    else if !sh.flag then Repeat(IrqLoop, 7)
    else Repeat(IrqLoop, 7) + BodySteps(OwnedByIrq(sh.(sem := false, count := 0)), body) + Repeat(IrqLoop, 2)
  }

  lemma SilentPassRefines(s: State, body: seq<Op>)
    requires ReadyToPass(s) && !(s.sh.count > 0 && Accepts(s.sh))
    ensures Admissible(s, PassSteps(s.sh, body))
    ensures Exec(s, PassSteps(s.sh, body)).sh == PassEffect(s.sh, body)
    ensures Exec(s, PassSteps(s.sh, body)).irq == Take
  {
    if s.sh.count == 0 {
      LoopMore(LoopStep(s), 0);
      LoopMore(s, 1);
    } else {
      var l := Locked(s);
      var l1 := LoopStep(l);
      if s.sh.cb == None {
        LoopMore(l1, 0);
        LoopMore(l, 1);
        UpToLock(s, 2);
      } else {
        var l2 := LoopStep(l1);
        LoopMore(l2, 0);
        LoopMore(l1, 1);
        LoopMore(l, 2);
        UpToLock(s, 3);
      }
    }
  }

  lemma CallingPassRefines(s: State, body: seq<Op>)
    requires ReadyToPass(s) && s.sh.count > 0 && Accepts(s.sh)
    requires Balanced(body, 0)
    ensures Admissible(s, PassSteps(s.sh, body))
    ensures Exec(s, PassSteps(s.sh, body)).sh == PassEffect(s.sh, body)
    ensures Exec(s, PassSteps(s.sh, body)).irq == Take
  {
    var l := Locked(s);
    var l1 := LoopStep(l);
    var l2 := LoopStep(l1);
    var b := LoopStep(l2);
    LoopMore(l2, 0);
    LoopMore(l1, 1);
    LoopMore(l, 2);
    UpToLock(s, 3);
    assert Exec(s, Repeat(IrqLoop, 7)) == b && b.sh == l.sh;
    BodyRefines(b, body, 0);
    var steps := BodySteps(b.sh, body);
    var e := Exec(b, steps);
    LoopMore(LoopStep(e), 0);
    LoopMore(e, 1);
    RunJoin(s, Repeat(IrqLoop, 7), steps);
    RunJoin(s, Repeat(IrqLoop, 7) + steps, Repeat(IrqLoop, 2));
  }

  /** One uninterrupted pass of the IRQ thread does in the protocol what the method below does. */
  lemma PassRefines(s: State, body: seq<Op>)
    requires ReadyToPass(s) && Balanced(body, 0)
    ensures Admissible(s, PassSteps(s.sh, body))
    ensures Exec(s, PassSteps(s.sh, body)).sh == PassEffect(s.sh, body)
    ensures Exec(s, PassSteps(s.sh, body)).irq == Take
  {
    if s.sh.count > 0 && Accepts(s.sh) {
      CallingPassRefines(s, body);
    } else {
      SilentPassRefines(s, body);
    }
  }

  class Driver {
    var irqNCb: Option<Callback>
    var monitorFlag: bool
    var unhandledIrqCount: nat
    var yukonIrqSem: bool
    var lockOwner: Option<Tid>
    var lockCount: nat
    var isIrqEnabled: bool

    ghost function Snapshot(): Shared
      reads this
    {
      Shared(irqNCb, monitorFlag, unhandledIrqCount, yukonIrqSem, lockOwner, lockCount, isIrqEnabled)
    }

    constructor ()
      ensures Snapshot() == InitShared
    {
      irqNCb, monitorFlag, unhandledIrqCount, yukonIrqSem := None, false, 0, false;
      lockOwner, lockCount, isIrqEnabled := None, 0, false;
    }

    /** The interrupt handler. */
    method IrqGpioCallback()
      modifies this
      ensures Snapshot() == HandleEdge(old(Snapshot()))
      ensures yukonIrqSem == (old(yukonIrqSem) || (monitorFlag && irqNCb != None))
      ensures unhandledIrqCount == old(unhandledIrqCount) + if monitorFlag && irqNCb != None then 1 else 0
      ensures irqNCb == old(irqNCb) && monitorFlag == old(monitorFlag)
    {
      if monitorFlag && irqNCb != None {
        unhandledIrqCount := unhandledIrqCount + 1;
        yukonIrqSem := true;
      }
    }

    method Lock(t: Tid)
      requires CanLock(Snapshot(), t)
      modifies this`lockOwner, this`lockCount
      ensures Snapshot() == MutexLock(old(Snapshot()), t)
      ensures lockOwner == Some(t) && lockCount == old(lockCount) + 1
    {
      lockOwner, lockCount := Some(t), lockCount + 1;
    }

    method Unlock(t: Tid)
      modifies this`lockOwner, this`lockCount
      ensures Snapshot() == MutexUnlock(old(Snapshot()), t)
      ensures old(lockOwner) != Some(t) ==> lockOwner == old(lockOwner) && lockCount == old(lockCount)
      ensures old(lockOwner) == Some(t) && old(lockCount) > 1 ==>
                lockOwner == Some(t) && lockCount == old(lockCount) - 1
      ensures old(lockOwner) == Some(t) && old(lockCount) <= 1 ==> lockOwner == None && lockCount == 0
    {
      if lockOwner == Some(t) {
        if lockCount > 1 {
          lockCount := lockCount - 1;
        } else {
          lockOwner, lockCount := None, 0;
        }
      }
    }

    method RegisterIrqCallback(t: Tid, f: Option<Callback>) returns (errorCode: int)
      requires MutexOk(Snapshot()) && CanLock(Snapshot(), t)
      modifies this
      ensures Snapshot() == CallEffect(old(Snapshot()), t, Register(f)).0
      ensures Code(errorCode) == CallEffect(old(Snapshot()), t, Register(f)).1
      ensures old(irqNCb) == None ==> errorCode == 0 && irqNCb == f && monitorFlag && unhandledIrqCount == 0
      ensures old(irqNCb) != None ==>
                && errorCode == EBUSY && irqNCb == old(irqNCb)
                && monitorFlag == old(monitorFlag) && unhandledIrqCount == old(unhandledIrqCount)
      ensures yukonIrqSem == old(yukonIrqSem) && lockOwner == old(lockOwner) && lockCount == old(lockCount)
    {
      errorCode := 0;
      Lock(t);
      if irqNCb == None {
        irqNCb := f;
        monitorFlag := true;
        unhandledIrqCount := 0;
      } else {
        errorCode := EBUSY;
      }
      Unlock(t);
    }

    method DeregisterIrqCallback(t: Tid) returns (errorCode: int)
      requires MutexOk(Snapshot()) && CanLock(Snapshot(), t)
      modifies this
      ensures Snapshot() == CallEffect(old(Snapshot()), t, Deregister).0
      ensures Code(errorCode) == CallEffect(old(Snapshot()), t, Deregister).1
      ensures errorCode == 0 && irqNCb == None
      ensures old(irqNCb) != None ==> !monitorFlag && unhandledIrqCount == 0
      ensures old(irqNCb) == None ==>
                monitorFlag == old(monitorFlag) && unhandledIrqCount == old(unhandledIrqCount)
      ensures yukonIrqSem == old(yukonIrqSem) && lockOwner == old(lockOwner) && lockCount == old(lockCount)
    {
      errorCode := 0;
      Lock(t);
      if irqNCb != None {
        monitorFlag := false;
        irqNCb := None;
        unhandledIrqCount := 0;
      }
      Unlock(t);
    }

    method IrqMonitorCallbackEnable(t: Tid, enable: bool)
      requires MutexOk(Snapshot()) && CanLock(Snapshot(), t)
      modifies this
      ensures Snapshot() == CallEffect(old(Snapshot()), t, MonitorEnable(enable)).0
      ensures monitorFlag == enable && unhandledIrqCount == 0 && irqNCb == old(irqNCb)
      ensures yukonIrqSem == old(yukonIrqSem) && lockOwner == old(lockOwner) && lockCount == old(lockCount)
    {
      Lock(t);
      unhandledIrqCount := 0;
      monitorFlag := enable;
      Unlock(t);
    }

    method IrqMonitorCallbackIsEnabled(t: Tid) returns (enable: bool)
      requires MutexOk(Snapshot()) && CanLock(Snapshot(), t)
      modifies this
      ensures Snapshot() == CallEffect(old(Snapshot()), t, MonitorIsEnabled).0
      ensures Answer(enable) == CallEffect(old(Snapshot()), t, MonitorIsEnabled).1
      ensures enable == old(monitorFlag) && Snapshot() == old(Snapshot())
    {
      Lock(t);
      enable := monitorFlag;
      Unlock(t);
    }

    method IrqEnableFunc(t: Tid, enable: bool)
      requires !enable ==> CanLock(Snapshot(), t)
      modifies this
      ensures Snapshot() == CallEffect(old(Snapshot()), t, IrqEnable(enable)).0
      ensures isIrqEnabled == enable
      ensures !enable ==> lockOwner == Some(t) && lockCount == old(lockCount) + 1
      ensures enable ==>
                Snapshot() == MutexUnlock(old(Snapshot()), t).(irqEnabled := true)
    {
      isIrqEnabled := enable;
      if enable {
        Unlock(t);
      } else {
        Lock(t);
      }
    }

    /** One driver call made by the callback. */
    method Perform(op: Op)
      requires MutexOk(Snapshot()) && lockOwner == Some(Irq)
      modifies this
      ensures Snapshot() == CallEffect(old(Snapshot()), Irq, op).0
    {
      match op {
        case Register(f) => var _ := RegisterIrqCallback(Irq, f);
        case Deregister => var _ := DeregisterIrqCallback(Irq);
        case MonitorEnable(b) => IrqMonitorCallbackEnable(Irq, b);
        case MonitorIsEnabled => var _ := IrqMonitorCallbackIsEnabled(Irq);
        case IrqEnable(on) => IrqEnableFunc(Irq, on);
      }
    }

    /** One pass of the IRQ thread's loop, with a callback that makes the given driver calls. */
    method IrqHandlerPass(body: seq<Op>) returns (called: bool)
      requires yukonIrqSem && lockOwner == None && lockCount == 0
      requires Balanced(body, 0)
      modifies this
      ensures Snapshot() == PassEffect(old(Snapshot()), body)
      ensures called <==> old(unhandledIrqCount > 0 && Accepts(Snapshot()))
      ensures lockOwner == None && lockCount == 0
      ensures !called ==>
                && !yukonIrqSem && unhandledIrqCount == 0
                && irqNCb == old(irqNCb) && monitorFlag == old(monitorFlag)
      ensures called && body == [] ==>
                && !yukonIrqSem && unhandledIrqCount == 0
                && irqNCb == old(irqNCb) && monitorFlag == old(monitorFlag)
    {
      called := false;
      yukonIrqSem := false;
      if unhandledIrqCount == 0 {
        return;
      }
      unhandledIrqCount := 0;
      Lock(Irq);
      if irqNCb != None && monitorFlag {
        called := true;
        ghost var locked := Snapshot();
        for k := 0 to |body|
          invariant Snapshot() == BodyEffect(locked, body[..k])
          invariant lockOwner == Some(Irq) && lockCount > 0
        {
          BodySnoc(locked, body, k);
          BodyOwnsLock(locked, body, 0, k + 1);
          Perform(body[k]);
        }
        assert body[..|body|] == body;
        BodyKeepsLock(locked, body, 0);
      }
      Unlock(Irq);
    }
  }
}
