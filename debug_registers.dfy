/**
 * The x86 debug registers as capemon manipulates them (CAPE/Debugger.c):
 * the four address registers Dr0-Dr3, the status register Dr6 and the
 * control register Dr7, plus the EFlags bits the debugger flips.
 *
 * Dr7 is kept as the bit fields the source names (L0-L3, RWE0-RWE3,
 * LEN0-LEN3, LE, GE); every other Dr7 bit (G0-G3, GD, reserved) is one
 * opaque number, so that "Dr7 = 0" is still expressible. Layout and
 * encodings follow the Intel SDM, Vol. 3B section 17.2.4; EFlags bit
 * positions follow the Intel SDM, Vol. 1 section 3.4.3.
 */
module DebugRegisters {
  import opened Basics

  /** The R/W encodings of Dr7: 00 execute, 01 write, 10 reserved (I/O), 11 read/write. */
  const BpExec: nat := 0
  const BpWrite: nat := 1
  const BpReadWrite: nat := 3

  /** The largest breakpoint size accepted; LengthMask has one entry per size 0..8. */
  const MaxDataSize: nat := 8

  datatype Dr7 = Dr7(
    local: seq<bool>,   // L0..L3
    rwe: seq<nat>,      // RWE0..RWE3, two bits each
    len: seq<nat>,      // LEN0..LEN3, two bits each
    le: bool,
    ge: bool,
    rest: nat)          // every other bit of the register

  /** The debug-register part of a CONTEXT (CONTEXT_DEBUG_REGISTERS). */
  datatype DebugRegs = DebugRegs(dr: seq<nat>, dr6: set<nat>, dr7: Dr7)

  predicate ValidDr7(d: Dr7)
  {
    |d.local| == 4 && |d.rwe| == 4 && |d.len| == 4 &&
    (forall n :: 0 <= n < 4 ==> d.rwe[n] < 4) &&
    (forall n :: 0 <= n < 4 ==> d.len[n] < 4)
  }

  predicate ValidRegs(d: DebugRegs)
  {
    |d.dr| == 4 && ValidDr7(d.dr7)
  }

  /** All of Dr0-Dr3, Dr6 and Dr7 zero, as the clear-all operations leave a context. */
  const ClearedRegs: DebugRegs :=
    DebugRegs([0, 0, 0, 0], {}, Dr7([false, false, false, false], [0, 0, 0, 0], [0, 0, 0, 0], false, false, 0))

  /**
   * The argument checks shared by ContextSetDebugRegisterEx and SetDebugRegister:
   * the type must be 0, 1 or 3, the register 0..3 and the size 0..8.
   */
  predicate ValidRequest(register: int, size: int, kind: nat)
  {
    kind <= 3 && kind != 2 && 0 <= register <= 3 && 0 <= size <= MaxDataSize
  }

  /**
   * The LEN value written for a request: the LengthMask entry of the size, or 0 for
   * an execute breakpoint (the SDM requires LEN = 0 there, Vol. 3B section 17.2.5).
   * Assigning to the two-bit field keeps the low two bits.
   */
  function LengthBits(lengthMask: seq<nat>, size: int, kind: nat): (l: nat)
    requires |lengthMask| == MaxDataSize + 1 && 0 <= size <= MaxDataSize
    ensures l < 4
    ensures kind == BpExec ==> l == 0
    ensures kind != BpExec ==> l % 4 == lengthMask[size] % 4
  {
    if kind == BpExec then 0 else lengthMask[size] % 4
  }

  /** Register `n` of `a` and of `b` hold the same address, enable bit, type and length. */
  predicate SameRegister(a: DebugRegs, b: DebugRegs, n: nat)
    requires ValidRegs(a) && ValidRegs(b) && n < 4
  {
    a.dr[n] == b.dr[n] && a.dr7.local[n] == b.dr7.local[n] &&
    a.dr7.rwe[n] == b.dr7.rwe[n] && a.dr7.len[n] == b.dr7.len[n]
  }

  /** Dr6, LE, GE and the other Dr7 bits are the same in `a` and `b`. */
  predicate SameControl(a: DebugRegs, b: DebugRegs)
  {
    a.dr6 == b.dr6 && a.dr7.le == b.dr7.le && a.dr7.ge == b.dr7.ge && a.dr7.rest == b.dr7.rest
  }

  /** Register `n` armed: Dr{n} = address, LEN{n} = length, RWE{n} = type, L{n} = 1. */
  function Arm(d: DebugRegs, n: nat, address: nat, length: nat, kind: nat): (r: DebugRegs)
    requires ValidRegs(d) && n < 4 && kind < 4
    ensures ValidRegs(r)
    ensures r.dr[n] == address && r.dr7.local[n] && r.dr7.rwe[n] == kind && r.dr7.len[n] == length % 4
    ensures forall m :: 0 <= m < 4 && m != n ==> SameRegister(r, d, m)
    ensures SameControl(r, d)
  {
    d.(dr := d.dr[n := address],
       dr7 := d.dr7.(local := d.dr7.local[n := true], rwe := d.dr7.rwe[n := kind], len := d.dr7.len[n := length % 4]))
  }

  /** Register `n` cleared: Dr{n}, LEN{n}, RWE{n} and L{n} all zero. */
  function Disarm(d: DebugRegs, n: nat): (r: DebugRegs)
    requires ValidRegs(d) && n < 4
    ensures ValidRegs(r)
    ensures r.dr[n] == 0 && !r.dr7.local[n] && r.dr7.rwe[n] == 0 && r.dr7.len[n] == 0
    ensures forall m :: 0 <= m < 4 && m != n ==> SameRegister(r, d, m)
    ensures SameControl(r, d)
  {
    d.(dr := d.dr[n := 0],
       dr7 := d.dr7.(local := d.dr7.local[n := false], rwe := d.dr7.rwe[n := 0], len := d.dr7.len[n := 0]))
  }

  /** Disarm applied to a register number the source does not range-check: out of 0..3 it changes nothing. */
  function DisarmIfValid(d: DebugRegs, n: int): (r: DebugRegs)
    requires ValidRegs(d)
    ensures ValidRegs(r)
    ensures !(0 <= n < 4) ==> r == d
  {
    if 0 <= n < 4 then Disarm(d, n) else d
  }

  /**
   * The registers of `regs` that lie in 0..3 cleared at once, as a run of
   * ClearDebugRegister calls on those registers leaves them.
   */
  function DisarmAll(d: DebugRegs, regs: set<int>): (r: DebugRegs)
    requires ValidRegs(d)
    ensures ValidRegs(r) && SameControl(r, d)
    ensures forall n :: 0 <= n < 4 && n in regs ==> r.dr[n] == 0 && !r.dr7.local[n] && r.dr7.rwe[n] == 0 && r.dr7.len[n] == 0
    ensures forall n :: 0 <= n < 4 && n !in regs ==> SameRegister(r, d, n)
  {
    d.(dr := seq(4, n requires 0 <= n < 4 => if n in regs then 0 else d.dr[n]),
       dr7 := d.dr7.(local := seq(4, n requires 0 <= n < 4 => if n in regs then false else d.dr7.local[n]),
                     rwe := seq(4, n requires 0 <= n < 4 => if n in regs then 0 else d.dr7.rwe[n]),
                     len := seq(4, n requires 0 <= n < 4 => if n in regs then 0 else d.dr7.len[n])))
  }

  /** Two register sets that agree on the control bits and on every register are equal. */
  lemma SameRegs(a: DebugRegs, b: DebugRegs)
    requires ValidRegs(a) && ValidRegs(b) && SameControl(a, b)
    requires forall n :: 0 <= n < 4 ==> SameRegister(a, b, n)
    ensures a == b
  {
    forall n | 0 <= n < 4
      ensures a.dr[n] == b.dr[n] && a.dr7.local[n] == b.dr7.local[n] && a.dr7.rwe[n] == b.dr7.rwe[n] && a.dr7.len[n] == b.dr7.len[n]
    {
      assert SameRegister(a, b, n);
    }
    assert a.dr == b.dr;
    assert a.dr7.local == b.dr7.local;
    assert a.dr7.rwe == b.dr7.rwe;
    assert a.dr7.len == b.dr7.len;
  }

  /** Clearing no register changes nothing. */
  lemma DisarmAllNone(d: DebugRegs)
    requires ValidRegs(d)
    ensures DisarmAll(d, {}) == d
  {
    SameRegs(DisarmAll(d, {}), d);
  }

  /** Clearing one more register is Disarm after the others; a number outside 0..3 changes nothing. */
  lemma DisarmAllStep(d: DebugRegs, regs: set<int>, n: int)
    requires ValidRegs(d)
    ensures DisarmAll(d, regs + {n}) == DisarmIfValid(DisarmAll(d, regs), n)
  {
    SameRegs(DisarmAll(d, regs + {n}), DisarmIfValid(DisarmAll(d, regs), n));
  }

  /** Clearing a register undoes arming it: nothing of the earlier request survives. */
  lemma DisarmUndoesArm(d: DebugRegs, n: nat, address: nat, length: nat, kind: nat)
    requires ValidRegs(d) && n < 4 && kind < 4
    ensures Disarm(Arm(d, n, address, length, kind), n) == Disarm(d, n)
  {
    var a := Disarm(Arm(d, n, address, length, kind), n);
    var b := Disarm(d, n);
    assert a.dr == b.dr;
    assert a.dr7.local == b.dr7.local;
    assert a.dr7.rwe == b.dr7.rwe;
    assert a.dr7.len == b.dr7.len;
  }

  /** Arming two different registers gives the same registers in either order. */
  lemma ArmCommutes(d: DebugRegs, n: nat, a1: nat, l1: nat, k1: nat, m: nat, a2: nat, l2: nat, k2: nat)
    requires ValidRegs(d) && n < 4 && m < 4 && n != m && k1 < 4 && k2 < 4
    ensures Arm(Arm(d, n, a1, l1, k1), m, a2, l2, k2) == Arm(Arm(d, m, a2, l2, k2), n, a1, l1, k1)
  {
    var x := Arm(Arm(d, n, a1, l1, k1), m, a2, l2, k2);
    var y := Arm(Arm(d, m, a2, l2, k2), n, a1, l1, k1);
    assert x.dr == y.dr;
    assert x.dr7.local == y.dr7.local;
    assert x.dr7.rwe == y.dr7.rwe;
    assert x.dr7.len == y.dr7.len;
  }

  /**
   * ContextCheckDebugRegister: the L{n} enable bit of register `n` as 0 or 1,
   * and 0 (FALSE) for a register number outside 0..3.
   */
  function CheckDebugRegister(d: DebugRegs, register: int): (r: int)
    requires ValidRegs(d)
    ensures r == 0 || r == 1
    ensures r == 1 <==> 0 <= register < 4 && d.dr7.local[register]
  {
    if register < 0 || register > 3 then 0
    else if d.dr7.local[register] then 1
    else 0
  }

  /** A register reads as enabled after arming it and as disabled after clearing it; the others read as before. */
  lemma CheckAfterArmAndDisarm(d: DebugRegs, n: nat, address: nat, length: nat, kind: nat, m: int)
    requires ValidRegs(d) && n < 4 && kind < 4
    ensures CheckDebugRegister(Arm(d, n, address, length, kind), m) == (if m == n then 1 else CheckDebugRegister(d, m))
    ensures CheckDebugRegister(Disarm(d, n), m) == (if m == n then 0 else CheckDebugRegister(d, m))
  {
    if 0 <= m < 4 && m != n {
      assert SameRegister(Arm(d, n, address, length, kind), d, m);
      assert SameRegister(Disarm(d, n), d, m);
    }
  }

  /** Bit B{i} of Dr6 (`Dr6 & (1 << i)`): breakpoint condition i was detected. */
  predicate Hit(dr6: set<nat>, i: nat)
  {
    i in dr6
  }

  /** The lowest of Dr6's B0-B3 bits that is set, or 4 when none is. */
  function LowestHit(dr6: set<nat>): (bp: nat)
    ensures bp <= 4
    ensures bp < 4 ==> Hit(dr6, bp)
    ensures forall i: nat :: i < bp ==> !Hit(dr6, i)
  {
    if Hit(dr6, 0) then 0
    else if Hit(dr6, 1) then 1
    else if Hit(dr6, 2) then 2
    else if Hit(dr6, 3) then 3
    else 4
  }

  // ---- EFlags ----
  // A register word is represented by the set of its bit positions that are 1,
  // so `|= mask`, `&= ~mask` and `^= mask` of a one-bit mask are set updates.

  datatype Flag = Carry | Zero | Sign | Trap | Resume

  /** The EFlags bit of each flag: CF bit 0, ZF bit 6, SF bit 7, TF bit 8, RF bit 16. */
  function FlagBit(f: Flag): nat
  {
    match f
    case Carry => 0
    case Zero => 6
    case Sign => 7
    case Trap => 8
    case Resume => 16
  }

  predicate IsSet(eflags: set<nat>, f: Flag)
  {
    FlagBit(f) in eflags
  }

  datatype FlagOp = SetFlag | ClearFlag | FlipFlag

  /** `|=`, `&= ~` or `^=` of one flag's mask. */
  function ApplyFlag(eflags: set<nat>, f: Flag, op: FlagOp): (r: set<nat>)
    ensures IsSet(r, f) == (op == SetFlag || (op == FlipFlag && !IsSet(eflags, f)))
    ensures forall b :: b != FlagBit(f) ==> (b in r <==> b in eflags)
  {
    var b := FlagBit(f);
    match op
    case SetFlag => eflags + {b}
    case ClearFlag => eflags - {b}
    case FlipFlag => if b in eflags then eflags - {b} else eflags + {b}
  }

  /** Flag bits are distinct, so an update of one flag leaves every other flag as it was. */
  lemma ApplyFlagKeepsOthers(eflags: set<nat>, f: Flag, op: FlagOp, g: Flag)
    requires g != f
    ensures IsSet(ApplyFlag(eflags, f, op), g) == IsSet(eflags, g)
  {
    assert FlagBit(g) != FlagBit(f);
  }

  /** Flipping a flag twice restores EFlags; setting or clearing twice is the same as once. */
  lemma ApplyFlagTwice(eflags: set<nat>, f: Flag, op: FlagOp)
    ensures op == FlipFlag ==> ApplyFlag(ApplyFlag(eflags, f, op), f, op) == eflags
    ensures op != FlipFlag ==> ApplyFlag(ApplyFlag(eflags, f, op), f, op) == ApplyFlag(eflags, f, op)
  {
  }

  /**
   * The CONTEXT record handed to an exception handler, updated in place:
   * the debug registers, EFlags, and the instruction pointer and the two
   * registers rdtscp writes (Rip, Rax, Rdx on x64).
   */
  class Context {
    var regs: DebugRegs
    var eflags: set<nat>
    var ip: nat
    var ax: nat
    var dx: nat

    ghost predicate Valid()
      reads this
    {
      ValidRegs(regs)
    }

    constructor (regs: DebugRegs, eflags: set<nat>, ip: nat, ax: nat, dx: nat)
      requires ValidRegs(regs)
      ensures Valid()
      ensures this.regs == regs && this.eflags == eflags && this.ip == ip && this.ax == ax && this.dx == dx
    {
      this.regs := regs;
      this.eflags := eflags;
      this.ip := ip;
      this.ax := ax;
      this.dx := dx;
    }
  }

  /**
   * The EFlags helpers SetResumeFlag, ResumeFromBreakpoint, ClearSingleStepMode and
   * Set/Clear/Flip of ZeroFlag, SignFlag and CarryFlag: FALSE for a NULL context,
   * otherwise one flag updated and TRUE.
   */
  method UpdateFlag(ctx: Context?, f: Flag, op: FlagOp) returns (ok: bool)
    modifies ctx
    ensures ok == (ctx != null)
    ensures ctx != null ==> ctx.eflags == ApplyFlag(old(ctx.eflags), f, op)
    ensures ctx != null ==> ctx.regs == old(ctx.regs) && ctx.ip == old(ctx.ip) && ctx.ax == old(ctx.ax) && ctx.dx == old(ctx.dx)
  {
    if ctx == null {
      return false;
    }
    ctx.eflags := ApplyFlag(ctx.eflags, f, op);
    return true;
  }
}
