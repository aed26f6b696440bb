/**
 * CAPEExceptionFilter of CAPE/Debugger.c (the x64 build): the vectored
 * exception handler that turns hardware-breakpoint single steps into
 * breakpoint callbacks, passes guard-page violations on tracked regions to
 * the guard-page handler, and emulates or patches `rdtscp`.
 *
 * The callbacks, the single-step handler and the guard-page handler are
 * foreign code: the filter's run of one is recorded as an `Event`, and the
 * guard-page handler's answer is an input. What the instruction decoder says
 * about the faulting instruction (is it `rdtscp`, how long is it) and the
 * time-stamp counter are inputs too.
 */
module ExceptionFilter {
  import opened Basics
  import opened DebugRegisters
  import opened Breakpoints
  import opened BreakpointManager

  /** EXCEPTION_SINGLE_STEP, STATUS_GUARD_PAGE_VIOLATION, STATUS_PRIVILEGED_INSTRUCTION, STATUS_ILLEGAL_INSTRUCTION. */
  const SingleStep: nat := 0x8000_0004
  const GuardPageViolation: nat := 0x8000_0001
  const PrivilegedInstruction: nat := 0xC000_0096
  const IllegalInstruction: nat := 0xC000_001D

  /** The two verdicts a vectored handler returns. */
  const ContinueExecution: int := -1
  const ContinueSearch: int := 0

  /** The foreign code the filter runs, or the instruction fix-up it makes. */
  datatype Event =
    | NoEvent
    | SingleStepHandlerRan(handler: Callback)
    | CallbackRan(callback: Callback)
    | GuardHandlerRan
    | RdtscpPatched
    | RdtscpEmulated

  /** The parts of the EXCEPTION_RECORD the filter reads. */
  datatype Exception = Exception(code: nat, numberParameters: nat)

  /** g_config.unpacker and g_config.nop_rdtscp. */
  datatype Settings = Settings(unpacker: bool, nopRdtscp: bool)

  /**
   * What the filter learns from calls it makes: whether the faulting data
   * address lies in a tracked region, whether the faulting code is in ntdll,
   * whether a guard-page handler is installed and what it answers, whether
   * the instruction is `rdtscp` and its length, and the time-stamp counter.
   */
  datatype Observation = Observation(tracked: bool, inNtdll: bool, guardHandler: bool, guardVerdict: bool,
                                     isRdtscp: bool, instructionLength: nat, timestamp: nat)

  datatype Decision = Decision(verdict: int, event: Event)

  /**
   * The filter's verdict and the foreign code it runs. `enabled` is
   * g_config.debugger; a handler or callback of 0 is NULL.
   */
  function Classify(enabled: bool, ts: seq<Table>, singleStepHandler: Callback, dr6: set<nat>, e: Exception,
                    settings: Settings, obs: Observation, current: ThreadId): Decision
    requires ValidTables(ts)
  {
    if enabled && e.code == SingleStep then
      match FindTable(ts, current)
      case None => Decision(ContinueSearch, NoEvent)
      case Some(k) =>
        var bp := LowestHit(dr6);
        if bp == 4 then
          if singleStepHandler != 0 then Decision(ContinueExecution, SingleStepHandlerRan(singleStepHandler))
          else Decision(ContinueSearch, NoEvent)
        else if ts[k].slots[bp].callback == 0 then Decision(ContinueSearch, NoEvent)
        else Decision(ContinueExecution, CallbackRan(ts[k].slots[bp].callback))
    else if enabled && e.code == GuardPageViolation then
      if !settings.unpacker || e.numberParameters < 2 then Decision(ContinueSearch, NoEvent)
      else if !obs.tracked || obs.inNtdll || !obs.guardHandler then Decision(ContinueExecution, NoEvent)
      else Decision(if obs.guardVerdict then ContinueExecution else ContinueSearch, GuardHandlerRan)
    else if (e.code == PrivilegedInstruction || e.code == IllegalInstruction) && obs.isRdtscp then
      Decision(ContinueExecution, if settings.nopRdtscp then RdtscpPatched else RdtscpEmulated)
    else Decision(ContinueSearch, NoEvent)
  }

  /** The filter only ever resumes execution on an exception it owns: a debugger single step or guard page, or an rdtscp fault. */
  lemma ResumesOnlyOwnExceptions(enabled: bool, ts: seq<Table>, singleStepHandler: Callback, dr6: set<nat>, e: Exception,
                                 settings: Settings, obs: Observation, current: ThreadId)
    requires ValidTables(ts)
    requires Classify(enabled, ts, singleStepHandler, dr6, e, settings, obs, current).verdict == ContinueExecution
    ensures (enabled && (e.code == SingleStep || e.code == GuardPageViolation)) ||
            ((e.code == PrivilegedInstruction || e.code == IllegalInstruction) && obs.isRdtscp)
  {
  }

  /**
   * A single step with the debugger on: no table for the thread, a step
   * that hit no breakpoint while no single-step handler is installed, and a
   * breakpoint without a callback are passed on; everything else resumes,
   * and exactly one piece of foreign code runs.
   */
  lemma SingleStepVerdict(ts: seq<Table>, singleStepHandler: Callback, dr6: set<nat>, e: Exception,
                          settings: Settings, obs: Observation, current: ThreadId)
    requires ValidTables(ts) && e.code == SingleStep
    ensures var d := Classify(true, ts, singleStepHandler, dr6, e, settings, obs, current);
      var k := FindTable(ts, current);
      var bp := LowestHit(dr6);
      (d.verdict == ContinueSearch <==>
        k.None? || (bp == 4 && singleStepHandler == 0) || (bp < 4 && ts[k.value].slots[bp].callback == 0)) &&
      (d.verdict == ContinueSearch <==> d.event == NoEvent) &&
      (d.event.CallbackRan? ==> bp < 4 && (forall i: nat :: i < bp ==> !Hit(dr6, i)) && d.event.callback == ts[k.value].slots[bp].callback)
  {
  }

  /**
   * A guard-page violation with the debugger on is passed on only when the
   * unpacker is off, the parameters are missing, or the installed
   * guard-page handler declines it.
   */
  lemma GuardPageVerdict(ts: seq<Table>, singleStepHandler: Callback, dr6: set<nat>, e: Exception,
                         settings: Settings, obs: Observation, current: ThreadId)
    requires ValidTables(ts) && e.code == GuardPageViolation
    ensures var d := Classify(true, ts, singleStepHandler, dr6, e, settings, obs, current);
      (d.verdict == ContinueSearch <==>
        !settings.unpacker || e.numberParameters < 2 ||
        (obs.tracked && !obs.inNtdll && obs.guardHandler && !obs.guardVerdict)) &&
      (d.event == GuardHandlerRan <==>
        settings.unpacker && e.numberParameters >= 2 && obs.tracked && !obs.inNtdll && obs.guardHandler)
  {
  }

  // ---- hit-count bookkeeping ----

  /**
   * One hit on slot `bp` of table `k` after its callback ran: a hit count
   * of 0 leaves the slot armed; otherwise the count drops by one, and when it
   * reaches 0 the breakpoint is cleared through the CONTEXT.
   */
  function HitSlot(ts: seq<Table>, live: map<ThreadId, DebugRegs>, regs: DebugRegs, k: nat, bp: nat, os: Os): (o: CtxOutcome)
    requires ValidTables(ts) && ValidRegs(regs) && LiveValid(live) && k < |ts| && bp < 4
    ensures ValidTables(o.tables) && ValidRegs(o.regs) && LiveValid(o.live) && o.live.Keys == live.Keys
    ensures |o.tables| == |ts| && forall j :: 0 <= j < |ts| ==> o.tables[j].handle == ts[j].handle
  {
    var s := ts[k].slots[bp];
    if s.hitCount == 0 then CtxOutcome(true, ts, live, regs)
    else
      var counted := SetSlot(ts, k, bp, s.(hitCount := s.hitCount - 1));
      if s.hitCount > 1 then CtxOutcome(true, counted, live, regs)
      else ContextClearSlot(counted, live, regs, k, bp, os)
  }

  /** `m` successive hits on the same slot. */
  function Hits(ts: seq<Table>, live: map<ThreadId, DebugRegs>, regs: DebugRegs, k: nat, bp: nat, m: nat, os: Os): (o: CtxOutcome)
    requires ValidTables(ts) && ValidRegs(regs) && LiveValid(live) && k < |ts| && bp < 4
    ensures ValidTables(o.tables) && ValidRegs(o.regs) && LiveValid(o.live) && o.live.Keys == live.Keys
    ensures |o.tables| == |ts| && forall j :: 0 <= j < |ts| ==> o.tables[j].handle == ts[j].handle
  {
    if m == 0 then CtxOutcome(true, ts, live, regs)
    else
      var o := Hits(ts, live, regs, k, bp, m - 1, os);
      HitSlot(o.tables, o.live, o.regs, k, bp, os)
  }

  /** Replacing the same slot twice keeps the second value. */
  lemma SetSlotTwice(ts: seq<Table>, k: nat, r: nat, a: Slot, b: Slot)
    requires k < |ts| && r < |ts[k].slots|
    ensures SetSlot(SetSlot(ts, k, r, a), k, r, b) == SetSlot(ts, k, r, b)
  {
    assert SetSlot(SetSlot(ts, k, r, a), k, r, b)[k].slots == SetSlot(ts, k, r, b)[k].slots;
  }

  /** A hit on a slot whose count is above 1 only lowers the count. */
  lemma HitLowersCount(ts: seq<Table>, live: map<ThreadId, DebugRegs>, regs: DebugRegs, k: nat, bp: nat, os: Os)
    requires ValidTables(ts) && ValidRegs(regs) && LiveValid(live) && k < |ts| && bp < 4
    requires ts[k].slots[bp].hitCount > 1
    ensures var s := ts[k].slots[bp];
      HitSlot(ts, live, regs, k, bp, os) == CtxOutcome(true, SetSlot(ts, k, bp, s.(hitCount := s.hitCount - 1)), live, regs)
  {
  }

  /** Before its count runs out, a breakpoint with hit count n stays armed, its count lowered by the hits so far. */
  lemma {:induction false} CountdownKeepsArmed(ts: seq<Table>, live: map<ThreadId, DebugRegs>, regs: DebugRegs,
                                               k: nat, bp: nat, m: nat, os: Os)
    requires ValidTables(ts) && ValidRegs(regs) && LiveValid(live) && k < |ts| && bp < 4
    requires m < ts[k].slots[bp].hitCount
    ensures var s := ts[k].slots[bp];
      Hits(ts, live, regs, k, bp, m, os) == CtxOutcome(true, SetSlot(ts, k, bp, s.(hitCount := s.hitCount - m)), live, regs)
  {
    var s := ts[k].slots[bp];
    if m == 0 {
      SetSlotSame(ts, k, bp);
    } else {
      CountdownKeepsArmed(ts, live, regs, k, bp, m - 1, os);
      CountdownStep(ts, live, regs, k, bp, m, os);
    }
  }

  /** Writing a slot's own value back changes nothing. */
  lemma SetSlotSame(ts: seq<Table>, k: nat, r: nat)
    requires k < |ts| && r < |ts[k].slots|
    ensures SetSlot(ts, k, r, ts[k].slots[r]) == ts
  {
    assert ts[k].slots[r := ts[k].slots[r]] == ts[k].slots;
  }

  /** The m-th hit on a slot whose count exceeds m lowers the count by m in all. */
  lemma CountdownStep(ts: seq<Table>, live: map<ThreadId, DebugRegs>, regs: DebugRegs, k: nat, bp: nat, m: nat, os: Os)
    requires ValidTables(ts) && ValidRegs(regs) && LiveValid(live) && k < |ts| && bp < 4
    requires 0 < m < ts[k].slots[bp].hitCount
    requires var s := ts[k].slots[bp];
      Hits(ts, live, regs, k, bp, m - 1, os) == CtxOutcome(true, SetSlot(ts, k, bp, s.(hitCount := s.hitCount - (m - 1))), live, regs)
    ensures var s := ts[k].slots[bp];
      Hits(ts, live, regs, k, bp, m, os) == CtxOutcome(true, SetSlot(ts, k, bp, s.(hitCount := s.hitCount - m)), live, regs)
  {
    var s := ts[k].slots[bp];
    var before := SetSlot(ts, k, bp, s.(hitCount := s.hitCount - (m - 1)));
    assert before[k].slots[bp] == s.(hitCount := s.hitCount - (m - 1));
    HitLowersCount(before, live, regs, k, bp, os);
    SetSlotTwice(ts, k, bp, s.(hitCount := s.hitCount - (m - 1)), s.(hitCount := s.hitCount - m));
  }

  /**
   * A breakpoint set with hit count n > 0 fires n times and is then cleared:
   * after the n-th hit its slot is free and the CONTEXT has its register
   * disarmed, provided the CONTEXT can be written to the slot's thread.
   */
  lemma ClearedWhenCountRunsOut(ts: seq<Table>, live: map<ThreadId, DebugRegs>, regs: DebugRegs, k: nat, bp: nat, os: Os)
    requires ValidTables(ts) && ValidRegs(regs) && LiveValid(live) && k < |ts| && bp < 4
    requires ts[k].slots[bp].hitCount > 0 && CanSet(ts[k].slots[bp].threadHandle, live, os)
    ensures var s := ts[k].slots[bp];
      var o := Hits(ts, live, regs, k, bp, s.hitCount, os);
      o.ok && o.tables[k].slots[bp] == Unarmed(s) && o.regs == DisarmIfValid(regs, s.register)
  {
    var s := ts[k].slots[bp];
    CountdownKeepsArmed(ts, live, regs, k, bp, s.hitCount - 1, os);
    var before := SetSlot(ts, k, bp, s.(hitCount := 1));
    SetSlotTwice(ts, k, bp, s.(hitCount := 1), s.(hitCount := 0));
    SetSlotTwice(ts, k, bp, s.(hitCount := 0), Unarmed(s));
  }

  /** A breakpoint with hit count 0 is never cleared by hits. */
  lemma {:induction false} ZeroCountStaysArmed(ts: seq<Table>, live: map<ThreadId, DebugRegs>, regs: DebugRegs,
                                               k: nat, bp: nat, m: nat, os: Os)
    requires ValidTables(ts) && ValidRegs(regs) && LiveValid(live) && k < |ts| && bp < 4
    requires ts[k].slots[bp].hitCount == 0
    ensures Hits(ts, live, regs, k, bp, m, os) == CtxOutcome(true, ts, live, regs)
  {
    if m > 0 {
      ZeroCountStaysArmed(ts, live, regs, k, bp, m - 1, os);
      assert Hits(ts, live, regs, k, bp, m, os) == HitSlot(ts, live, regs, k, bp, os);
    }
  }

  // ---- rdtscp emulation ----

  /** EDX:EAX of a 64-bit time stamp: the low and the high 32 bits. */
  function SplitTimestamp(timestamp: nat): (r: (nat, nat))
    requires timestamp < Word64
    ensures r.0 < Word32 && r.1 < Word32
    ensures r.1 * Word32 + r.0 == timestamp
  {
    (timestamp % Word32, timestamp / Word32)
  }

  /** CAPEExceptionFilter's single-step branch: find the hit register and run, count down and clear its breakpoint. */
  method FilterSingleStep(dbg: Debugger, ctx: Context, e: Exception, settings: Settings, obs: Observation, current: ThreadId, os: Os)
    returns (verdict: int, event: Event)
    requires dbg.Valid() && ctx.Valid() && dbg.enabled && e.code == SingleStep
    modifies ctx, dbg`tables, dbg`live
    ensures dbg.Valid() && ctx.Valid()
    ensures Decision(verdict, event) ==
      Classify(dbg.enabled, old(dbg.tables), dbg.singleStepHandler, old(ctx.regs.dr6), e, settings, obs, current)
    ensures event.CallbackRan? ==>
      FindTable(old(dbg.tables), current).Some? && LowestHit(old(ctx.regs.dr6)) < 4 &&
      var o := HitSlot(old(dbg.tables), old(dbg.live), old(ctx.regs), FindTable(old(dbg.tables), current).value,
                       LowestHit(old(ctx.regs.dr6)), os);
      dbg.tables == o.tables && dbg.live == o.live && ctx.regs == o.regs &&
      ctx.eflags == old(ctx.eflags) && ctx.ip == old(ctx.ip) && ctx.ax == old(ctx.ax) && ctx.dx == old(ctx.dx)
    ensures !event.CallbackRan? ==>
      ctx.regs == old(ctx.regs) && ctx.eflags == old(ctx.eflags) && ctx.ip == old(ctx.ip) &&
      ctx.ax == old(ctx.ax) && ctx.dx == old(ctx.dx) && dbg.tables == old(dbg.tables) && dbg.live == old(dbg.live)
  {
    var k := dbg.GetThreadBreakpoints(current);
    if k.None? {
      return ContinueSearch, NoEvent;
    }
    var bp := 0;
    while bp < 4 && bp !in ctx.regs.dr6
      invariant bp <= 4
      invariant forall i: nat :: i < bp ==> !Hit(ctx.regs.dr6, i)
    {
      bp := bp + 1;
    }
    assert bp == LowestHit(ctx.regs.dr6);
    if bp == 4 {
      if dbg.singleStepHandler != 0 {
        return ContinueExecution, SingleStepHandlerRan(dbg.singleStepHandler);
      }
      return ContinueSearch, NoEvent;
    }
    var s := dbg.tables[k.value].slots[bp];
    if s.callback == 0 {
      return ContinueSearch, NoEvent;
    }
    event := CallbackRan(s.callback);
    if s.hitCount != 0 {
      dbg.tables := SetSlot(dbg.tables, k.value, bp, s.(hitCount := s.hitCount - 1));
      if s.hitCount - 1 == 0 {
        var _ := dbg.ContextClearBreakpoint(ctx, k.value, bp, os);
      }
    }
    return ContinueExecution, event;
  }

  /**
   * CAPEExceptionFilter. On a breakpoint hit the callback's own effects are
   * not modelled: the registry is as the filter left it.
   */
  method Filter(dbg: Debugger, ctx: Context, e: Exception, settings: Settings, obs: Observation, current: ThreadId, os: Os)
    returns (verdict: int, event: Event)
    requires dbg.Valid() && ctx.Valid() && obs.timestamp < Word64
    modifies ctx, dbg`tables, dbg`live
    ensures dbg.Valid() && ctx.Valid()
    ensures Decision(verdict, event) ==
      Classify(dbg.enabled, old(dbg.tables), dbg.singleStepHandler, old(ctx.regs.dr6), e, settings, obs, current)
    ensures event.CallbackRan? ==>
      FindTable(old(dbg.tables), current).Some? && LowestHit(old(ctx.regs.dr6)) < 4 &&
      var o := HitSlot(old(dbg.tables), old(dbg.live), old(ctx.regs), FindTable(old(dbg.tables), current).value,
                       LowestHit(old(ctx.regs.dr6)), os);
      dbg.tables == o.tables && dbg.live == o.live && ctx.regs == o.regs &&
      ctx.eflags == old(ctx.eflags) && ctx.ip == old(ctx.ip) && ctx.ax == old(ctx.ax) && ctx.dx == old(ctx.dx)
    ensures event.RdtscpEmulated? ==>
      (ctx.ax, ctx.dx) == SplitTimestamp(obs.timestamp) && ctx.ip == (old(ctx.ip) + obs.instructionLength) % Word64 &&
      ctx.regs == old(ctx.regs) && ctx.eflags == old(ctx.eflags) && dbg.tables == old(dbg.tables) && dbg.live == old(dbg.live)
    ensures !event.CallbackRan? && !event.RdtscpEmulated? ==>
      ctx.regs == old(ctx.regs) && ctx.eflags == old(ctx.eflags) && ctx.ip == old(ctx.ip) &&
      ctx.ax == old(ctx.ax) && ctx.dx == old(ctx.dx) && dbg.tables == old(dbg.tables) && dbg.live == old(dbg.live)
  {
    if dbg.enabled && e.code == SingleStep {
      verdict, event := FilterSingleStep(dbg, ctx, e, settings, obs, current, os);
      return;
    } else if dbg.enabled && e.code == GuardPageViolation {
      if !settings.unpacker {
        return ContinueSearch, NoEvent;
      }
      if e.numberParameters < 2 {
        return ContinueSearch, NoEvent;
      }
      if !obs.tracked {
        return ContinueExecution, NoEvent;
      }
      if obs.inNtdll {
        return ContinueExecution, NoEvent;
      }
      if obs.guardHandler {
        if obs.guardVerdict {
          return ContinueExecution, GuardHandlerRan;
        }
        return ContinueSearch, GuardHandlerRan;
      }
      return ContinueExecution, NoEvent;
    } else if e.code == PrivilegedInstruction || e.code == IllegalInstruction {
      if obs.isRdtscp {
        if settings.nopRdtscp {
          return ContinueExecution, RdtscpPatched;
        }
        ctx.ax := obs.timestamp % Word32;
        ctx.dx := obs.timestamp / Word32;
        ctx.ip := (ctx.ip + obs.instructionLength) % Word64;
        return ContinueExecution, RdtscpEmulated;
      }
    }
    return ContinueSearch, NoEvent;
  }
}
