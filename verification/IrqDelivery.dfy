/**
  What the IRQ_N protocol promises over whole runs: accepted interrupts are accounted for
  and delivered, the callback is excluded by irq_enable(false), and it stays silent after
  deregistration.  Where the driver loses or misattributes an interrupt, the exact condition
  is proved.
 */
module IrqDelivery {
  import opened IrqMachine
  import opened IrqInvariant
  import opened Wrappers

  // ---- Accounting ----

  /** Every accepted edge is cleared by the IRQ thread, cleared by a control call, or still counted. */
  lemma {:induction false} EdgesConserved(s: State, run: seq<Step>)
    requires Admissible(s, run)
    ensures s.sh.count + Total(s, run, AcceptedEdge)
         == Total(s, run, ClearedByIrqThread) + Total(s, run, ClearedByControl) + Exec(s, run).sh.count
    decreases |run|
  {
    if run != [] {
      EdgesConserved(Next(s, run[0]), run[1..]);
    }
  }

  /** Calls the IRQ thread is already committed to, plus the edges that can cause another. */
  function Debt(s: State): nat {
    match s.irq
    case Zero => if s.sh.count > 0 then s.sh.count else 1
    case Lock => s.sh.count + 1
    case TestCallback => s.sh.count + 1
    case TestFlag => s.sh.count + 1
    case Call => s.sh.count + 1
    case _ => s.sh.count
  }

  lemma {:induction false} CallsBounded(s: State, run: seq<Step>)
    requires Admissible(s, run)
    ensures Total(s, run, CallStart) + Debt(Exec(s, run)) <= Debt(s) + Total(s, run, AcceptedEdge)
    decreases |run|
  {
    if run != [] {
      CallsBounded(Next(s, run[0]), run[1..]);
    }
  }

  /** In every run of the driver the callback is invoked at most once per accepted edge. */
  lemma CallsNeverExceedEdges(run: seq<Step>)
    requires Admissible(Init, run)
    ensures Total(Init, run, CallStart) <= Total(Init, run, AcceptedEdge)
  {
    CallsBounded(Init, run);
  }

  // ---- Delivery ----

  /** A callback invocation is owed: an edge is counted, or the IRQ thread has cleared one and not yet called. */
  predicate Pending(s: State) {
    Accepts(s.sh) && (s.sh.count > 0 || s.irq in {Zero, Lock, TestCallback, TestFlag, Call})
  }

  /** The number of actions of the IRQ thread's loop up to and including the next call. */
  function Distance(s: State): nat {
    match s.irq
    case Take => 7
    case Check => 6
    case Zero => 5
    case Lock => 4
    case TestCallback => 3
    case TestFlag => 2
    case Call => 1
    case Body => 9
    case Unlock => 8
  }

  lemma PendingStep(s: State, step: Step)
    requires Inv(s) && Enabled(s, step) && Pending(s)
    requires Revocation(s, step) == 0 && CallStart(s, step) == 0
    ensures Pending(Next(s, step))
    ensures Distance(Next(s, step)) == Distance(s) - LoopAction(s, step)
  {
  }

  /** While an invocation is owed, only the mutex or the callback body itself can hold the IRQ thread up. */
  lemma PendingIsAwake(s: State)
    requires Inv(s) && Pending(s)
    ensures Enabled(s, IrqLoop)
         || (s.irq == Lock && s.sh.owner.Some? && s.sh.owner != Some(Irq))
         || s.irq == Body
  {
  }

  lemma {:induction false} PendingIsDelivered(s: State, run: seq<Step>)
    requires Inv(s) && Admissible(s, run) && Pending(s)
    requires Total(s, run, Revocation) == 0
    requires Total(s, run, LoopAction) >= Distance(s)
    ensures Total(s, run, CallStart) >= 1
    decreases |run|
  {
    if run != [] && CallStart(s, run[0]) == 0 {
      StepKeepsInv(s, run[0]);
      PendingStep(s, run[0]);
      PendingIsDelivered(Next(s, run[0]), run[1..]);
    }
  }

  /**
    No accepted interrupt is lost: in every run, once the handler has accepted an edge at
    step i, the IRQ thread starts a callback invocation after no more actions of its loop
    than lie between where it stands and the call, nine at most, unless a control call
    clears the counter, writes the callback or lowers the flag after the edge.
   */
  lemma NoLostInterrupt(run: seq<Step>, i: nat)
    requires Admissible(Init, run) && i < |run|
    requires AcceptedEdge(StateAt(run, i), run[i]) == 1
    requires Total(StateAt(run, i + 1), run[i + 1..], Revocation) == 0
    requires Total(StateAt(run, i + 1), run[i + 1..], LoopAction) >= Distance(StateAt(run, i + 1))
    ensures Total(StateAt(run, i + 1), run[i + 1..], CallStart) >= 1
    ensures Distance(StateAt(run, i + 1)) <= 9
  {
    hide StateAt;
    Reached(run, i);
    Reached(run, i + 1);
    StateAtNext(run, i);
    PendingIsDelivered(StateAt(run, i + 1), run[i + 1..]);
  }

  lemma Reached(run: seq<Step>, i: nat)
    requires Admissible(Init, run) && i <= |run|
    ensures Inv(StateAt(run, i))
  {
    assert run == run[..i] + run[i..];
    RunSplit(Init, run[..i], run[i..]);
    InitInv();
    RunKeepsInv(Init, run[..i]);
  }

  /** Thread t is about to clear the counter with the callback enabled, and no further edge is accepted after it. */
  ghost predicate Clearing(s: State, t: Tid, after: seq<Step>) {
    && Inv(s) && OpEnabled(s, t) && LocalOf(s, t).pc.WriteCount? && Accepts(s.sh)
    && Admissible(Next(s, OpStep(t)), after) && Total(Next(s, OpStep(t)), after, AcceptedEdge) == 0
  }

  /**
    What becomes of the edges that a control call clears from the counter: register_irq_callback
    does, and irq_monitor_callback_enable when the flag is already up.  Unless the IRQ thread
    had seen the counter and not yet taken the lock, they are lost: no continuation without a
    further edge starts an invocation.  If it had, an invocation starts as soon as the IRQ
    thread has made the four or five actions up to the call, provided nothing is revoked.
   */
  lemma ClearedEdgeDeliveredExactlyWhenSeen(s: State, t: Tid, after: seq<Step>)
    requires Clearing(s, t, after)
    ensures s.irq !in {Zero, Lock} ==> Total(Next(s, OpStep(t)), after, CallStart) == 0
    ensures s.irq in {Zero, Lock} && Total(Next(s, OpStep(t)), after, Revocation) == 0
            && Total(Next(s, OpStep(t)), after, LoopAction) >= Distance(s) ==>
              Total(Next(s, OpStep(t)), after, CallStart) >= 1
  {
    var s' := Next(s, OpStep(t));
    HolderOwns(s, t);
    StepKeepsInv(s, OpStep(t));
    if s.irq !in {Zero, Lock} {
      assert t != Irq ==> Holds(s, Irq) == 0;
      CallsBounded(s', after);
    } else if Total(s', after, Revocation) == 0 && Total(s', after, LoopAction) >= Distance(s) {
      PendingIsDelivered(s', after);
    }
  }

  // ---- Nothing is counted for a callback that is gone ----

  /** Some deregistration has removed the callback and not yet cleared the counter. */
  ghost predicate Forgetting(s: State) {
    exists t :: LocalOf(s, t).pc == WriteCount(Deregister)
  }

  /** Without a callback the counter is zero, except in the middle of a deregistration. */
  ghost predicate Forgotten(s: State) {
    s.sh.cb == None && !Forgetting(s) ==> s.sh.count == 0
  }

  /** Only the thread that holds the mutex can be in the middle of a deregistration. */
  lemma NobodyForgets(s: State, t: Tid)
    requires Inv(s) && Holds(s, t) > 0 && LocalOf(s, t).pc != WriteCount(Deregister)
    ensures !Forgetting(s)
  {
    HolderOwns(s, t);
    forall u ensures LocalOf(s, u).pc != WriteCount(Deregister) {
      assert u != t ==> Holds(s, u) == 0;
    }
  }

  lemma CallKeepsForgotten(s: State, t: Tid)
    requires Inv(s) && Forgotten(s) && OpEnabled(s, t)
    ensures Forgotten(Next(s, OpStep(t)))
  {
    var s' := Next(s, OpStep(t));
    var pc := LocalOf(s, t).pc;
    assert CallKnows(s.sh, pc);
    if pc.WriteCb? {
      if pc.op.Register? {
        NobodyForgets(s, t);
      } else {
        assert LocalOf(s', t).pc == WriteCount(Deregister);
      }
    } else if !pc.WriteCount? {
      forall u | LocalOf(s, u).pc == WriteCount(Deregister) ensures LocalOf(s', u).pc == WriteCount(Deregister) {
      }
    }
  }

  lemma StepKeepsForgotten(s: State, step: Step)
    requires Inv(s) && Forgotten(s) && Enabled(s, step)
    ensures Forgotten(Next(s, step))
  {
    match step
    case OpStep(t) => CallKeepsForgotten(s, t);
    case _ =>
      forall u | LocalOf(s, u).pc == WriteCount(Deregister)
        ensures LocalOf(Next(s, step), u).pc == WriteCount(Deregister)
      {
      }
  }

  lemma {:induction false} RunKeepsForgotten(s: State, run: seq<Step>)
    requires Inv(s) && Forgotten(s) && Admissible(s, run)
    ensures Forgotten(Exec(s, run))
    decreases |run|
  {
    if run != [] {
      StepKeepsInv(s, run[0]);
      StepKeepsForgotten(s, run[0]);
      RunKeepsForgotten(Next(s, run[0]), run[1..]);
    }
  }

  /** In every run from start-up, without a callback and with no deregistration about to clear it, the counter is 0. */
  lemma NoStaleCount(run: seq<Step>)
    requires Admissible(Init, run)
    ensures Exec(Init, run).sh.cb == None && !Forgetting(Exec(Init, run)) ==> Exec(Init, run).sh.count == 0
  {
    InitInv();
    RunKeepsForgotten(Init, run);
  }

  // ---- Exclusion ----

  /** The callback never runs, and is not about to, while another thread is between disabling and enabling the IRQ. */
  lemma CallbackExcluded(run: seq<Step>, t: Tid)
    requires Admissible(Init, run) && t != Irq
    requires LocalOf(Exec(Init, run), t).held > 0
    ensures Exec(Init, run).irq !in {TestCallback, TestFlag, Call, Body, Unlock}
    ensures Exec(Init, run).sh.owner == Some(t)
  {
    InitInv();
    RunKeepsInv(Init, run);
    HolderOwns(Exec(Init, run), t);
    assert Holds(Exec(Init, run), Irq) == 0;
  }

  /** When the IRQ thread calls through the pointer, the pointer is not NULL and the monitor is enabled. */
  lemma NeverCallsNull(run: seq<Step>)
    requires Admissible(Init, run)
    requires Exec(Init, run).irq == Call
    ensures Exec(Init, run).sh.cb.Some? && Exec(Init, run).sh.flag
  {
    InitInv();
    RunKeepsInv(Init, run);
  }

  /** Only a deregistration takes a registered callback away; in particular a second register does not replace it. */
  lemma LiveCallbackKept(run: seq<Step>, step: Step)
    requires Admissible(Init, run) && Enabled(Exec(Init, run), step)
    requires Exec(Init, run).sh.cb.Some?
    requires Next(Exec(Init, run), step).sh.cb != Exec(Init, run).sh.cb
    ensures step.OpStep? && LocalOf(Exec(Init, run), step.th).pc == WriteCb(Deregister)
    ensures Next(Exec(Init, run), step).sh.cb == None
  {
    hide MutexInv, WakeupInv, Exec, Admissible;
    InitInv();
    RunKeepsInv(Init, run);
    if step.OpStep? {
      assert CallKnows(Exec(Init, run).sh, LocalOf(Exec(Init, run), step.th).pc);
    }
  }

  /** What each control call has achieved at the moment it gives the mutex back, in every interleaving. */
  lemma CallsTakeEffect(run: seq<Step>, t: Tid)
    requires Admissible(Init, run)
    requires LocalOf(Exec(Init, run), t).pc.Unlocking?
    ensures var sh, pc := Exec(Init, run).sh, LocalOf(Exec(Init, run), t).pc;
            match pc.op
            case Register(f) =>
              if pc.result == Code(0) then sh.cb == f && sh.flag else pc.result == Code(EBUSY) && sh.cb.Some?
            case Deregister => pc.result == Code(0) && sh.cb == None && sh.count == 0
            case MonitorEnable(b) => sh.flag == b
            case MonitorIsEnabled => pc.result == Answer(sh.flag)
            case IrqEnable(on) => on
  {
    var s := Exec(Init, run);
    InitInv();
    RunKeepsInv(Init, run);
    assert CallKnows(s.sh, LocalOf(s, t).pc);
    if LocalOf(s, t).pc.op == Deregister {
      HolderOwns(s, t);
      NobodyForgets(s, t);
      NoStaleCount(run);
    }
  }

  // ---- Quiescence ----

  lemma {:induction false} NoCallbackNoCall(s: State, run: seq<Step>)
    requires Inv(s) && Admissible(s, run)
    requires s.sh.cb == None
    requires Total(s, run, RegisterWrite) == 0
    ensures Total(s, run, CallStart) == 0
    ensures Exec(s, run).sh.cb == None
    ensures s.irq != Body ==> Exec(s, run).irq != Body
    decreases |run|
  {
    hide MutexInv, WakeupInv;
    if run != [] {
      if run[0].OpStep? {
        assert CallKnows(s.sh, LocalOf(s, run[0].th).pc);
      }
      StepKeepsInv(s, run[0]);
      NoCallbackNoCall(Next(s, run[0]), run[1..]);
    }
  }

  /**
    Once deregister_irq_callback has returned, at step i, in a thread other than the IRQ
    thread, no invocation is in progress and none starts in the rest of the run unless some
    register call stores a callback.
   */
  lemma QuietAfterDeregister(run: seq<Step>, i: nat, t: Tid)
    requires Admissible(Init, run) && i < |run| && run[i] == OpStep(t) && t != Irq
    requires var pc := LocalOf(StateAt(run, i), t).pc; pc.Unlocking? && pc.op == Deregister
    requires Total(StateAt(run, i + 1), run[i + 1..], RegisterWrite) == 0
    ensures StateAt(run, i + 1).irq !in {TestCallback, TestFlag, Call, Body, Unlock}
    ensures Total(StateAt(run, i + 1), run[i + 1..], CallStart) == 0
    ensures Exec(StateAt(run, i + 1), run[i + 1..]).irq != Body
    ensures Exec(StateAt(run, i + 1), run[i + 1..]).sh.cb == None
  {
    hide StateAt;
    var s := StateAt(run, i);
    Reached(run, i);
    Reached(run, i + 1);
    StateAtNext(run, i);
    assert CallKnows(s.sh, LocalOf(s, t).pc);
    HolderOwns(s, t);
    assert Holds(s, Irq) == 0;
    NoCallbackNoCall(StateAt(run, i + 1), run[i + 1..]);
  }

  /**
    Once deregister_irq_callback has returned, at step i, in a thread other than the IRQ
    thread, and the IRQ thread had not already seen the counter, nothing of the old callback
    reaches a new one: no invocation starts in the rest of the run without a further accepted
    edge, whatever is registered meanwhile.
   */
  lemma NothingLeftForTheNextCallback(run: seq<Step>, i: nat, t: Tid)
    requires Admissible(Init, run) && i < |run| && run[i] == OpStep(t) && t != Irq
    requires var pc := LocalOf(StateAt(run, i), t).pc; pc.Unlocking? && pc.op == Deregister
    requires StateAt(run, i).irq !in {Zero, Lock}
    requires Total(StateAt(run, i + 1), run[i + 1..], AcceptedEdge) == 0
    ensures Total(StateAt(run, i + 1), run[i + 1..], CallStart) == 0
  {
    var s := StateAt(run, i);
    Reached(run, i);
    StateAtNext(run, i);
    CallsTakeEffect(run[..i], t);
    HolderOwns(s, t);
    assert Holds(s, Irq) == 0;
    CallsBounded(StateAt(run, i + 1), run[i + 1..]);
  }

  lemma {:induction false} DisabledNoCall(s: State, run: seq<Step>)
    requires Inv(s) && Admissible(s, run)
    requires !s.sh.flag
    requires Total(s, run, FlagRaise) == 0
    ensures Total(s, run, CallStart) == 0 && Total(s, run, AcceptedEdge) == 0
    ensures !Exec(s, run).sh.flag
    decreases |run|
  {
    hide MutexInv, WakeupInv;
    if run != [] {
      if run[0].OpStep? {
        assert CallKnows(s.sh, LocalOf(s, run[0].th).pc);
      }
      StepKeepsInv(s, run[0]);
      DisabledNoCall(Next(s, run[0]), run[1..]);
    }
  }

  /**
    After irq_monitor_callback_enable(false) has returned, at step i, no edge is accepted and
    no invocation starts in the rest of the run unless the flag is raised again.
   */
  lemma QuietAfterDisable(run: seq<Step>, i: nat, t: Tid)
    requires Admissible(Init, run) && i < |run| && run[i] == OpStep(t)
    requires var pc := LocalOf(StateAt(run, i), t).pc; pc.Unlocking? && pc.op == MonitorEnable(false)
    requires Total(StateAt(run, i + 1), run[i + 1..], FlagRaise) == 0
    ensures Total(StateAt(run, i + 1), run[i + 1..], CallStart) == 0
    ensures Total(StateAt(run, i + 1), run[i + 1..], AcceptedEdge) == 0
  {
    hide StateAt;
    var s := StateAt(run, i);
    Reached(run, i);
    Reached(run, i + 1);
    StateAtNext(run, i);
    assert CallKnows(s.sh, LocalOf(s, t).pc);
    DisabledNoCall(StateAt(run, i + 1), run[i + 1..]);
  }

  // ---- Where the driver does not keep what a client might expect ----

  /** Runs the same step n times. */
  function Repeat(step: Step, n: nat): seq<Step> {
    if n == 0 then [] else [step] + Repeat(step, n - 1)
  }

  /**
    An invocation that no edge has caused since the counter was last cleared is possible
    exactly when the clearing caught the IRQ thread between its own check and its lock.  So
    a newly registered callback can receive an interrupt meant for the one before it.
   */
  lemma SpuriousCallExactlyWhenCaught(s: State)
    requires Inv(s) && s.sh.owner == None && s.sh.count == 0 && Accepts(s.sh)
    ensures (exists run :: Uncaused(s, run)) <==> s.irq in {Zero, Lock}
  {
    if s.irq in {Zero, Lock} {
      assert Holds(s, Irq) == 0;
      if s.irq == Zero {
        assert Uncaused(s, Repeat(IrqLoop, 5)) by { UncausedFromZero(s); }
      } else {
        assert Uncaused(s, Repeat(IrqLoop, 4)) by { UncausedFromLock(s); }
      }
    } else {
      assert Holds(s, Irq) == 0;
      forall run | Admissible(s, run) && Total(s, run, AcceptedEdge) == 0
        ensures Total(s, run, CallStart) == 0
      {
        CallsBounded(s, run);
      }
    }
  }

  /** A run in which an invocation starts although no edge is accepted. */
  ghost predicate Uncaused(s: State, run: seq<Step>) {
    Admissible(s, run) && Total(s, run, AcceptedEdge) == 0 && Total(s, run, CallStart) > 0
  }

  lemma UncausedFromLock(s: State)
    requires s.irq == Lock && s.sh.owner == None && Accepts(s.sh)
    ensures Uncaused(s, Repeat(IrqLoop, 4))
  {
  }

  lemma UncausedFromZero(s: State)
    requires s.irq == Zero && s.sh.owner == None && Accepts(s.sh)
    ensures Uncaused(s, Repeat(IrqLoop, 5))
  {
  }

  /** A registration by thread t up to the point where the flag is up and the counter not yet cleared. */
  function Registering(t: Tid, f: Callback): seq<Step> {
    [Begin(t, Register(Some(f))), OpStep(t), OpStep(t), OpStep(t), OpStep(t)]
  }

  function HalfRegistered(t: Tid, f: Callback): State {
    State(Shared(Some(f), true, 0, false, Some(t), 1, false), Take,
          map[t := Local(WriteCount(Register(Some(f))), 0, Void)])
  }

  lemma Unroll(s: State, run: seq<Step>, rest: seq<Step>)
    requires run != [] && run[1..] == rest
    requires Enabled(s, run[0]) && Admissible(Next(s, run[0]), rest)
    ensures Admissible(s, run) && Exec(s, run) == Exec(Next(s, run[0]), rest)
    ensures Total(s, run, AcceptedEdge) == AcceptedEdge(s, run[0]) + Total(Next(s, run[0]), rest, AcceptedEdge)
    ensures Total(s, run, CallStart) == CallStart(s, run[0]) + Total(Next(s, run[0]), rest, CallStart)
  {
  }

  lemma RegisteringReaches(t: Tid, f: Callback)
    requires t != Irq
    ensures Admissible(Init, Registering(t, f)) && Exec(Init, Registering(t, f)) == HalfRegistered(t, f)
    ensures Total(Init, Registering(t, f), AcceptedEdge) == Total(Init, Registering(t, f), CallStart) == 0
  {
    var op, o := Register(Some(f)), OpStep(t);
    var s1 := State(InitShared, Take, map[t := Local(Locking(op), 0, Void)]);
    var s2 := State(MutexLock(InitShared, t), Take, map[t := Local(ReadCb(op), 0, Void)]);
    var s3 := State(s2.sh, Take, map[t := Local(WriteCb(op), 0, Void)]);
    var s4 := State(s2.sh.(cb := Some(f)), Take, map[t := Local(WriteFlag(op), 0, Void)]);
    assert Next(Init, Begin(t, op)) == s1;
    assert Next(s1, o) == s2;
    assert Next(s2, o) == s3;
    assert Next(s3, o) == s4;
    assert Next(s4, o) == HalfRegistered(t, f);
    Unroll(s4, [o], []);
    Unroll(s3, [o, o], [o]);
    Unroll(s2, [o, o, o], [o, o]);
    Unroll(s1, [o, o, o, o], [o, o, o]);
    Unroll(Init, Registering(t, f), [o, o, o, o]);
  }

  /** The driver at rest with a callback registered and nothing counted. */
  function Registered(t: Tid, f: Callback, ret: Ret): State {
    State(Shared(Some(f), true, 0, false, None, 0, false), Take, map[t := Local(Idle, 0, ret)])
  }

  /** A registration with an edge counted and the counter not yet cleared; the IRQ thread at its semaphore. */
  function Counted(t: Tid, f: Callback): State {
    var s := HalfRegistered(t, f);
    s.(sh := s.sh.(count := 1, sem := true))
  }

  /** The same, once the IRQ thread has taken the semaphore and seen the counter. */
  function Seen(t: Tid, f: Callback): State {
    var s := Counted(t, f);
    s.(sh := s.sh.(sem := false), irq := Zero)
  }

  lemma CountedReached(t: Tid, f: Callback)
    requires t != Irq
    ensures Next(HalfRegistered(t, f), Edge) == Counted(t, f) && Inv(Counted(t, f))
  {
    RegisteringReaches(t, f);
    InitInv();
    RunKeepsInv(Init, Registering(t, f));
    StepKeepsInv(HalfRegistered(t, f), Edge);
  }

  lemma SeenReached(t: Tid, f: Callback)
    requires t != Irq
    ensures var s := Counted(t, f).(sh := Counted(t, f).sh.(sem := false), irq := Check);
            && Enabled(Counted(t, f), IrqLoop) && Next(Counted(t, f), IrqLoop) == s
            && Enabled(s, IrqLoop) && Next(s, IrqLoop) == Seen(t, f)
    ensures Inv(Seen(t, f))
  {
    var s := Counted(t, f).(sh := Counted(t, f).sh.(sem := false), irq := Check);
    CountedReached(t, f);
    StepKeepsInv(Counted(t, f), IrqLoop);
    StepKeepsInv(s, IrqLoop);
  }

  /** The rest of the registration after it has cleared the counter, and the IRQ thread's answer to the semaphore. */
  function RegisteringEnd(t: Tid): seq<Step> {
    [OpStep(t), IrqLoop, IrqLoop]
  }

  /** The counted edge is cleared with the IRQ thread at its semaphore: the hypotheses of a lost edge are met. */
  lemma RegisterMayLose(t: Tid, f: Callback)
    requires t != Irq
    ensures Clearing(Counted(t, f), t, RegisteringEnd(t)) && Counted(t, f).irq !in {Zero, Lock}
    ensures Exec(Next(Counted(t, f), OpStep(t)), RegisteringEnd(t)) == Registered(t, f, Code(0))
  {
    var o := OpStep(t);
    var s6 := Counted(t, f);
    var s7 := State(s6.sh.(count := 0), Take, map[t := Local(Unlocking(Register(Some(f)), Code(0)), 0, Void)]);
    var s8 := State(MutexUnlock(s7.sh, t), Take, map[t := Local(Idle, 0, Code(0))]);
    var s9 := State(s8.sh.(sem := false), Check, s8.locals);
    CountedReached(t, f);
    assert Next(s6, o) == s7;
    assert Next(s7, o) == s8;
    assert Next(s8, IrqLoop) == s9;
    hide Inv;
    Unroll(s9, [IrqLoop], []);
    Unroll(s8, [IrqLoop, IrqLoop], [IrqLoop]);
    Unroll(s7, RegisteringEnd(t), [IrqLoop, IrqLoop]);
  }

  /**
    An edge accepted while register_irq_callback is between raising the flag and clearing the
    counter, with the IRQ thread still at its semaphore when the counter is cleared: the
    registration succeeds, the IRQ thread is back at its semaphore, and nothing is left of
    the edge.
   */
  lemma LostDuringRegister(t: Tid, f: Callback)
    requires t != Irq
    ensures var run := Registering(t, f) + ([Edge, OpStep(t)] + RegisteringEnd(t));
            && Admissible(Init, run)
            && Total(Init, run, AcceptedEdge) == 1
            && Total(Init, run, CallStart) == 0
            && Exec(Init, run) == Registered(t, f, Code(0))
  {
    var o, rest := OpStep(t), RegisteringEnd(t);
    RegisterMayLose(t, f);
    ClearedEdgeDeliveredExactlyWhenSeen(Counted(t, f), t, rest);
    CountedReached(t, f);
    hide Inv, RegisteringEnd, Registered;
    Unroll(Counted(t, f), [o] + rest, rest);
    Unroll(HalfRegistered(t, f), [Edge, o] + rest, [o] + rest);
    AfterRegistering(t, f, [Edge, o] + rest);
  }

  lemma AfterRegistering(t: Tid, f: Callback, rest: seq<Step>)
    requires t != Irq && Admissible(HalfRegistered(t, f), rest)
    ensures var run := Registering(t, f) + rest;
            && Admissible(Init, run) && Exec(Init, run) == Exec(HalfRegistered(t, f), rest)
            && Total(Init, run, AcceptedEdge) == Total(HalfRegistered(t, f), rest, AcceptedEdge)
            && Total(Init, run, CallStart) == Total(HalfRegistered(t, f), rest, CallStart)
  {
    RegisteringReaches(t, f);
    RunJoin(Init, Registering(t, f), rest);
    TotalJoin(Init, Registering(t, f), rest, AcceptedEdge);
    TotalJoin(Init, Registering(t, f), rest, CallStart);
  }

  /** What the IRQ thread's own actions count for. */
  lemma {:induction false} LoopTotals(s: State, n: nat)
    requires Admissible(s, Repeat(IrqLoop, n))
    ensures Total(s, Repeat(IrqLoop, n), AcceptedEdge) == 0 && Total(s, Repeat(IrqLoop, n), Revocation) == 0
    ensures Total(s, Repeat(IrqLoop, n), LoopAction) == n
    decreases n
  {
    if n > 0 {
      assert Repeat(IrqLoop, n)[0] == IrqLoop && Repeat(IrqLoop, n)[1..] == Repeat(IrqLoop, n - 1);
      LoopTotals(Next(s, IrqLoop), n - 1);
    }
  }

  /** The end of the registration, and then the IRQ thread up to the call. */
  function ThenCall(t: Tid): seq<Step> {
    [OpStep(t)] + Repeat(IrqLoop, 5)
  }

  /** The counted edge is cleared after the IRQ thread has seen it: the hypotheses of a delivered edge are met. */
  lemma RegisterMayDeliver(t: Tid, f: Callback)
    requires t != Irq
    ensures Clearing(Seen(t, f), t, ThenCall(t)) && Seen(t, f).irq in {Zero, Lock}
    ensures Total(Next(Seen(t, f), OpStep(t)), ThenCall(t), Revocation) == 0
    ensures Total(Next(Seen(t, f), OpStep(t)), ThenCall(t), LoopAction) >= Distance(Seen(t, f))
  {
    var o := OpStep(t);
    var s8 := Seen(t, f);
    var s9 := State(s8.sh.(count := 0), Zero, map[t := Local(Unlocking(Register(Some(f)), Code(0)), 0, Void)]);
    var s10 := State(MutexUnlock(s9.sh, t), Zero, map[t := Local(Idle, 0, Code(0))]);
    SeenReached(t, f);
    assert Next(s8, o) == s9;
    assert Next(s9, o) == s10;
    UncausedFromZero(s10);
    LoopTotals(s10, 5);
    hide Inv, Repeat;
    assert ThenCall(t)[0] == o && ThenCall(t)[1..] == Repeat(IrqLoop, 5);
  }

  lemma SeenThen(t: Tid, f: Callback, rest: seq<Step>)
    requires t != Irq && Admissible(Seen(t, f), rest)
    ensures var s, run := HalfRegistered(t, f), [Edge, IrqLoop, IrqLoop] + rest;
            && Admissible(s, run) && Exec(s, run) == Exec(Seen(t, f), rest)
            && Total(s, run, AcceptedEdge) == 1 + Total(Seen(t, f), rest, AcceptedEdge)
            && Total(s, run, CallStart) == Total(Seen(t, f), rest, CallStart)
  {
    CountedReached(t, f);
    SeenReached(t, f);
    hide Inv, CallAction;
    Unroll(Next(Counted(t, f), IrqLoop), [IrqLoop] + rest, rest);
    Unroll(Counted(t, f), [IrqLoop, IrqLoop] + rest, [IrqLoop] + rest);
    Unroll(HalfRegistered(t, f), [Edge, IrqLoop, IrqLoop] + rest, [IrqLoop, IrqLoop] + rest);
  }

  /** An edge accepted at the same point is delivered when the IRQ thread has seen it before the counter is cleared. */
  lemma KeptDuringRegister(t: Tid, f: Callback)
    requires t != Irq
    ensures var run := Registering(t, f) + ([Edge, IrqLoop, IrqLoop, OpStep(t)] + ThenCall(t));
            && Admissible(Init, run)
            && Total(Init, run, AcceptedEdge) == 1
            && Total(Init, run, CallStart) >= 1
  {
    var o, rest := OpStep(t), ThenCall(t);
    RegisterMayDeliver(t, f);
    ClearedEdgeDeliveredExactlyWhenSeen(Seen(t, f), t, rest);
    hide Inv, ThenCall, Next, Seen;
    Unroll(Seen(t, f), [o] + rest, rest);
    SeenThen(t, f, [o] + rest);
    assert [Edge, IrqLoop, IrqLoop] + ([o] + rest) == [Edge, IrqLoop, IrqLoop, o] + rest;
    AfterRegistering(t, f, [Edge, IrqLoop, IrqLoop, o] + rest);
  }

  /** irq_monitor_callback_enable(true) on an enabled driver, with an edge just before it clears the counter. */
  function EdgeBeforeClear(t: Tid): seq<Step> {
    [Begin(t, MonitorEnable(true)), OpStep(t), Edge]
  }

  /** The same call with the edge counted and the counter not yet cleared. */
  function CountedEnabling(t: Tid, f: Callback, ret: Ret): State {
    State(Shared(Some(f), true, 1, true, Some(t), 1, false), Take,
          map[t := Local(WriteCount(MonitorEnable(true)), 0, ret)])
  }

  /** The rest of that call after it has cleared the counter, and the IRQ thread's answer to the semaphore. */
  function EnablingEnd(t: Tid): seq<Step> {
    [OpStep(t), OpStep(t), IrqLoop, IrqLoop]
  }

  lemma RegisteredInv(t: Tid, f: Callback, ret: Ret)
    ensures Inv(Registered(t, f, ret))
  {
    var s := Registered(t, f, ret);
    forall u ensures Holds(s, u) == 0 && CallKnows(s.sh, LocalOf(s, u).pc) {
    }
  }

  lemma EnablingReaches(t: Tid, f: Callback, ret: Ret)
    requires t != Irq
    ensures var s, run := Registered(t, f, ret), EdgeBeforeClear(t);
            && Admissible(s, run) && Exec(s, run) == CountedEnabling(t, f, ret)
            && Total(s, run, AcceptedEdge) == 1 && Total(s, run, CallStart) == 0
    ensures Inv(CountedEnabling(t, f, ret))
  {
    var op, o := MonitorEnable(true), OpStep(t);
    var s0 := Registered(t, f, ret);
    var s1 := s0.(locals := map[t := Local(Locking(op), 0, ret)]);
    var s2 := State(MutexLock(s1.sh, t), Take, map[t := Local(WriteCount(op), 0, ret)]);
    assert Next(s0, Begin(t, op)) == s1;
    assert Next(s1, o) == s2;
    assert Next(s2, Edge) == CountedEnabling(t, f, ret);
    Unroll(s2, [Edge], []);
    Unroll(s1, [o, Edge], [Edge]);
    Unroll(s0, EdgeBeforeClear(t), [o, Edge]);
    RegisteredInv(t, f, ret);
    RunKeepsInv(s0, EdgeBeforeClear(t));
  }

  /** The same call right after it has cleared the counter. */
  function HalfEnabled(t: Tid, f: Callback, ret: Ret): State {
    State(Shared(Some(f), true, 0, true, Some(t), 1, false), Take,
          map[t := Local(WriteFlag(MonitorEnable(true)), 0, ret)])
  }

  lemma EnablingEnds(t: Tid, f: Callback, ret: Ret)
    requires t != Irq
    ensures var s, rest := HalfEnabled(t, f, ret), EnablingEnd(t);
            && Admissible(s, rest) && Exec(s, rest) == Registered(t, f, Void) && Total(s, rest, AcceptedEdge) == 0
  {
    var op, o := MonitorEnable(true), OpStep(t);
    var s4 := HalfEnabled(t, f, ret);
    var s5 := s4.(locals := map[t := Local(Unlocking(op, Void), 0, ret)]);
    var s6 := State(MutexUnlock(s5.sh, t), Take, map[t := Local(Idle, 0, Void)]);
    var s7 := State(s6.sh.(sem := false), Check, s6.locals);
    assert Next(s4, o) == s5;
    assert Next(s5, o) == s6;
    assert Next(s6, IrqLoop) == s7;
    Unroll(s7, [IrqLoop], []);
    Unroll(s6, [IrqLoop, IrqLoop], [IrqLoop]);
    Unroll(s5, [o, IrqLoop, IrqLoop], [IrqLoop, IrqLoop]);
    Unroll(s4, EnablingEnd(t), [o, IrqLoop, IrqLoop]);
  }

  /** The hypotheses of a lost edge are met here too. */
  lemma EnableMayLose(t: Tid, f: Callback, ret: Ret)
    requires t != Irq
    ensures var s := CountedEnabling(t, f, ret);
            && Clearing(s, t, EnablingEnd(t)) && s.irq !in {Zero, Lock}
            && Exec(Next(s, OpStep(t)), EnablingEnd(t)) == Registered(t, f, Void)
  {
    EnablingReaches(t, f, ret);
    EnablingEnds(t, f, ret);
    hide Inv, EnablingEnd;
    assert Next(CountedEnabling(t, f, ret), OpStep(t)) == HalfEnabled(t, f, ret);
  }

  /** Enabling an already enabled callback loses an edge in the same way. */
  lemma LostDuringEnable(t: Tid, f: Callback, ret: Ret)
    requires t != Irq
    ensures var s, run := Registered(t, f, ret), EdgeBeforeClear(t) + ([OpStep(t)] + EnablingEnd(t));
            && Admissible(s, run)
            && Total(s, run, AcceptedEdge) == 1
            && Total(s, run, CallStart) == 0
            && Exec(s, run) == Registered(t, f, Void)
  {
    var s, o, rest := Registered(t, f, ret), OpStep(t), EnablingEnd(t);
    EnablingReaches(t, f, ret);
    EnableMayLose(t, f, ret);
    ClearedEdgeDeliveredExactlyWhenSeen(CountedEnabling(t, f, ret), t, rest);
    hide Inv, Next, EdgeBeforeClear, EnablingEnd;
    Unroll(CountedEnabling(t, f, ret), [o] + rest, rest);
    RunJoin(s, EdgeBeforeClear(t), [o] + rest);
    TotalJoin(s, EdgeBeforeClear(t), [o] + rest, AcceptedEdge);
    TotalJoin(s, EdgeBeforeClear(t), [o] + rest, CallStart);
  }
}
