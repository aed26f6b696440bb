/**
 * The breakpoint manager of CAPE/Debugger.c (the x64 build): the list of
 * per-thread tables and the debug registers of the live threads, held by a
 * `Debugger` object whose methods set and clear breakpoints on one thread,
 * on every thread, by register, by address range, and through an exception
 * handler's CONTEXT.
 *
 * The live threads' debug registers are a map from thread id to registers:
 * GetThreadContext reads an entry, SetThreadContext replaces it, and the
 * `Os` answers say which threads let either call succeed.
 */
module BreakpointManager {
  import opened Basics
  import opened DebugRegisters
  import opened Breakpoints

  predicate LiveValid(live: map<ThreadId, DebugRegs>)
  {
    forall t :: t in live ==> ValidRegs(live[t])
  }

  // ---- one thread's registers (SetDebugRegister, ClearDebugRegister) ----

  /** SetDebugRegister succeeds: the request is valid and the thread's context can be read and written back. */
  predicate SetAccepts(h: Option<ThreadId>, register: int, size: int, kind: nat, live: map<ThreadId, DebugRegs>, os: Os)
  {
    ValidRequest(register, size, kind) && CanGet(h, live, os) && CanSet(h, live, os)
  }

  /** The live registers after SetDebugRegister on handle `h`. */
  function ArmedLive(live: map<ThreadId, DebugRegs>, h: Option<ThreadId>, register: int, size: int, address: nat,
                     kind: nat, lengthMask: seq<nat>, os: Os): (r: map<ThreadId, DebugRegs>)
    requires LiveValid(live) && |lengthMask| == MaxDataSize + 1
    ensures LiveValid(r) && r.Keys == live.Keys
  {
    if SetAccepts(h, register, size, kind, live, os) then
      live[h.value := Arm(live[h.value], register, address, LengthBits(lengthMask, size, kind), kind)]
    else live
  }

  /** ClearDebugRegister succeeds: type, register and size pass its checks and the context can be read and written back. */
  predicate ClearAccepts(h: Option<ThreadId>, register: int, size: int, kind: nat, live: map<ThreadId, DebugRegs>, os: Os)
  {
    kind <= 3 && 0 <= register <= 3 && 0 <= size <= MaxDataSize && CanGet(h, live, os) && CanSet(h, live, os)
  }

  /** The live registers after ClearDebugRegister on handle `h`. */
  function DisarmedLive(live: map<ThreadId, DebugRegs>, h: Option<ThreadId>, register: int, size: int, kind: nat, os: Os): (r: map<ThreadId, DebugRegs>)
    requires LiveValid(live)
    ensures LiveValid(r) && r.Keys == live.Keys
  {
    if ClearAccepts(h, register, size, kind, live, os) then live[h.value := Disarm(live[h.value], register)] else live
  }

  // ---- one thread's table (SetThreadBreakpoint, ClearThreadBreakpoint) ----

  /** The registry after an operation: its result, the tables, the live registers, and whether a table was created. */
  datatype Registry = Registry(ok: bool, tables: seq<Table>, live: map<ThreadId, DebugRegs>, created: bool)

  predicate RegistryValid(r: Registry)
  {
    ValidTables(r.tables) && LiveValid(r.live)
  }

  /**
   * SetThreadBreakpoint: check the register, look the thread's table up or
   * create it, require a handle, write the slot, then arm the thread's
   * registers (whose result is not looked at).
   */
  function SetThread(ts: seq<Table>, live: map<ThreadId, DebugRegs>, tid: ThreadId, register: int, size: int, address: nat,
                     kind: nat, hitCount: nat, callback: Callback, mainThreadId: ThreadId, lengthMask: seq<nat>, os: Os): (r: Registry)
    requires ValidTables(ts) && LiveValid(live) && |lengthMask| == MaxDataSize + 1
    ensures RegistryValid(r) && r.live.Keys == live.Keys && |r.tables| >= |ts|
  {
    if !(0 <= register <= 3) then Registry(false, ts, live, false)
    else
      var a := AcquireOutcome(ts, tid, mainThreadId, os);
      AcquireShape(ts, tid, mainThreadId, os);
      if a.index.None? || a.tables[a.index.value].handle.None? then Registry(false, a.tables, live, a.created)
      else
        var k := a.index.value;
        var h := a.tables[k].handle;
        Registry(true, SetSlot(a.tables, k, register, Slot(register, size, address, kind, hitCount, callback, h)),
                 ArmedLive(live, h, register, size, address, kind, lengthMask, os), a.created)
  }

  /**
   * ClearThreadBreakpoint: check the register, look the thread's table up or
   * create it, require a handle, clear the registers the slot names, and only
   * then clear the slot.
   */
  function ClearThread(ts: seq<Table>, live: map<ThreadId, DebugRegs>, tid: ThreadId, register: int,
                       mainThreadId: ThreadId, os: Os): (r: Registry)
    requires ValidTables(ts) && LiveValid(live)
    ensures RegistryValid(r) && r.live.Keys == live.Keys
  {
    if !(0 <= register <= 3) then Registry(false, ts, live, false)
    else
      var a := AcquireOutcome(ts, tid, mainThreadId, os);
      AcquireShape(ts, tid, mainThreadId, os);
      if a.index.None? || a.tables[a.index.value].handle.None? then Registry(false, a.tables, live, a.created)
      else
        var k := a.index.value;
        var s := a.tables[k].slots[register];
        if ClearAccepts(s.threadHandle, s.register, s.size, s.kind, live, os) then
          Registry(true, SetSlot(a.tables, k, register, Cleared(s)),
                   DisarmedLive(live, s.threadHandle, s.register, s.size, s.kind, os), a.created)
        else Registry(false, a.tables, live, a.created)
  }

  /** On a thread with a table of a well-formed registry, SetThreadBreakpoint fills that table's slot and arms that thread only. */
  lemma SetThreadInWellFormed(ts: seq<Table>, live: map<ThreadId, DebugRegs>, i: nat, register: int, size: int, address: nat,
                              kind: nat, hitCount: nat, callback: Callback, mainThreadId: ThreadId, lengthMask: seq<nat>, os: Os)
    requires ValidTables(ts) && LiveValid(live) && |lengthMask| == MaxDataSize + 1
    requires WellFormed(ts) && i < |ts| && 0 <= register <= 3
    ensures var tid := ts[i].threadId;
      SetThread(ts, live, tid, register, size, address, kind, hitCount, callback, mainThreadId, lengthMask, os) ==
      Registry(true, SetSlot(ts, i, register, Slot(register, size, address, kind, hitCount, callback, Some(tid))),
               ArmedLive(live, Some(tid), register, size, address, kind, lengthMask, os), false)
  {
    FindInWellFormed(ts, i);
  }

  /** After a successful SetThreadBreakpoint the thread's table holds the request and a lookup finds that table. */
  lemma SetThreadRecords(ts: seq<Table>, live: map<ThreadId, DebugRegs>, tid: ThreadId, register: int, size: int, address: nat,
                         kind: nat, hitCount: nat, callback: Callback, mainThreadId: ThreadId, lengthMask: seq<nat>, os: Os)
    requires ValidTables(ts) && LiveValid(live) && |lengthMask| == MaxDataSize + 1
    ensures var r := SetThread(ts, live, tid, register, size, address, kind, hitCount, callback, mainThreadId, lengthMask, os);
      r.ok ==> (FindTable(r.tables, tid).Some? &&
        var k := FindTable(r.tables, tid).value;
        r.tables[k].slots[register] == Slot(register, size, address, kind, hitCount, callback, Some(tid)))
  {
    var r := SetThread(ts, live, tid, register, size, address, kind, hitCount, callback, mainThreadId, lengthMask, os);
    if r.ok {
      var a := AcquireOutcome(ts, tid, mainThreadId, os);
      AcquiredIsFound(ts, tid, mainThreadId, os);
      var k := a.index.value;
      FindTableByHandles(a.tables, r.tables, tid);
      assert HandleThreadId(a.tables[k].handle) == tid;
    }
  }

  /**
   * The thread's live registers change exactly when SetDebugRegister accepts:
   * then register `register` holds the address, type and length, and the
   * other registers and every other thread are as they were.
   */
  lemma ArmedLiveArms(live: map<ThreadId, DebugRegs>, h: Option<ThreadId>, register: int, size: int, address: nat,
                      kind: nat, lengthMask: seq<nat>, os: Os, t: ThreadId)
    requires LiveValid(live) && |lengthMask| == MaxDataSize + 1 && t in live
    ensures var r := ArmedLive(live, h, register, size, address, kind, lengthMask, os);
      (h != Some(t) ==> r[t] == live[t]) &&
      (h == Some(t) && SetAccepts(h, register, size, kind, live, os) ==>
        r[t].dr[register] == address && r[t].dr7.local[register] && r[t].dr7.rwe[register] == kind &&
        r[t].dr7.len[register] == LengthBits(lengthMask, size, kind) &&
        (forall m :: 0 <= m < 4 && m != register ==> SameRegister(r[t], live[t], m)) && SameControl(r[t], live[t])) &&
      (!SetAccepts(h, register, size, kind, live, os) ==> r == live)
  {
  }

  /** A slot cleared by ClearThreadBreakpoint no longer holds a breakpoint, but keeps its register number and handle. */
  lemma ClearThreadEmpties(ts: seq<Table>, live: map<ThreadId, DebugRegs>, tid: ThreadId, register: int, mainThreadId: ThreadId, os: Os)
    requires ValidTables(ts) && LiveValid(live)
    ensures var r := ClearThread(ts, live, tid, register, mainThreadId, os);
      r.ok ==> (FindTable(r.tables, tid).Some? &&
        var k := FindTable(r.tables, tid).value;
        var a := AcquireOutcome(ts, tid, mainThreadId, os);
        var s := r.tables[k].slots[register];
        s.address == 0 && s.size == 0 && s.kind == 0 && s.hitCount == 0 && s.callback == 0 &&
        s.register == a.tables[k].slots[register].register && s.threadHandle == a.tables[k].slots[register].threadHandle)
  {
    var r := ClearThread(ts, live, tid, register, mainThreadId, os);
    if r.ok {
      var a := AcquireOutcome(ts, tid, mainThreadId, os);
      AcquiredIsFound(ts, tid, mainThreadId, os);
      FindTableByHandles(a.tables, r.tables, tid);
    }
  }

  // ---- every thread (SetBreakpoint, ClearBreakpoint, the range and clear-all walks) ----

  /** The thread ids of the first `n` tables. */
  function ThreadIds(ts: seq<Table>, n: nat): set<ThreadId>
  {
    set j | 0 <= j < n && j < |ts| :: ts[j].threadId
  }

  lemma ThreadIdsStep(ts: seq<Table>, n: nat)
    requires n < |ts|
    ensures ThreadIds(ts, n + 1) == ThreadIds(ts, n) + {ts[n].threadId}
  {
    assert ts[n].threadId in ThreadIds(ts, n + 1);
  }

  /** In a well-formed registry no earlier table carries the thread id of table `n`. */
  lemma ThreadIdsDistinct(ts: seq<Table>, n: nat)
    requires WellFormed(ts) && n < |ts|
    ensures ts[n].threadId !in ThreadIds(ts, n)
  {
  }

  /** A table whose slot `register` holds a request, with the table's own handle. */
  function Filled(t: Table, register: nat, size: int, address: nat, kind: nat, hitCount: nat, callback: Callback): Table
    requires register < |t.slots|
  {
    t.(slots := t.slots[register := Slot(register, size, address, kind, hitCount, callback, t.handle)])
  }

  /** A table whose slot `register` went through ClearBreakpoint's update. */
  function WipedTable(t: Table, register: nat): Table
    requires register < |t.slots|
  {
    t.(slots := t.slots[register := Wiped(t.slots[register], t.handle)])
  }

  /** Some table before the `n`th has slot `q` armed inside the range. */
  predicate RangeHitBefore(ts: seq<Table>, n: nat, q: nat, base: nat, size: nat)
    requires ValidTables(ts) && n <= |ts| && q < 4
  {
    exists j :: 0 <= j < n && InRange(ts[j].slots[q].address, base, size)
  }

  /** The first table ClearAllBreakpoints stops at: no thread id, no handle, or a context it cannot read or write. */
  predicate Stuck(t: Table, live: map<ThreadId, DebugRegs>, os: Os)
  {
    t.threadId == 0 || t.handle.None? || !CanGet(t.handle, live, os) || !CanSet(t.handle, live, os)
  }

  function FirstStuck(ts: seq<Table>, live: map<ThreadId, DebugRegs>, os: Os): (n: nat)
    ensures n <= |ts|
    ensures n < |ts| ==> Stuck(ts[n], live, os)
    ensures forall j :: 0 <= j < n ==> !Stuck(ts[j], live, os)
  {
    if ts == [] then 0 else if Stuck(ts[0], live, os) then 0 else 1 + FirstStuck(ts[1..], live, os)
  }

  /**
   * SetBreakpoint's walk over a well-formed registry `ts0` after `i` tables:
   * those tables hold the request in slot `register` and their threads'
   * registers are as SetDebugRegister leaves them; the rest is untouched.
   */
  ghost predicate SetProgress(ts0: seq<Table>, live0: map<ThreadId, DebugRegs>, ts: seq<Table>, live: map<ThreadId, DebugRegs>,
                              i: nat, register: int, size: int, address: nat, kind: nat, hitCount: nat, callback: Callback,
                              lengthMask: seq<nat>, os: Os)
    requires ValidTables(ts0) && LiveValid(live0) && |lengthMask| == MaxDataSize + 1
  {
    |ts| == |ts0| && live.Keys == live0.Keys &&
    (forall j :: 0 <= j < |ts0| ==>
      ts[j] == if j < i && 0 <= register <= 3 then Filled(ts0[j], register, size, address, kind, hitCount, callback) else ts0[j]) &&
    (forall t :: t in live0 ==>
      live[t] == if t in ThreadIds(ts0, i) then ArmedLive(live0, Some(t), register, size, address, kind, lengthMask, os)[t] else live0[t])
  }

  /** One step of SetBreakpoint's walk: SetThreadBreakpoint on the next table's thread. */
  lemma SetProgressStep(ts0: seq<Table>, live0: map<ThreadId, DebugRegs>, ts: seq<Table>, live: map<ThreadId, DebugRegs>,
                        i: nat, register: int, size: int, address: nat, kind: nat, hitCount: nat, callback: Callback,
                        mainThreadId: ThreadId, lengthMask: seq<nat>, os: Os)
    requires ValidTables(ts0) && LiveValid(live0) && |lengthMask| == MaxDataSize + 1
    requires ValidTables(ts) && LiveValid(live)
    requires WellFormed(ts0) && i < |ts0|
    requires SetProgress(ts0, live0, ts, live, i, register, size, address, kind, hitCount, callback, lengthMask, os)
    ensures var r := SetThread(ts, live, ts0[i].threadId, register, size, address, kind, hitCount, callback, mainThreadId, lengthMask, os);
      !r.created && SetProgress(ts0, live0, r.tables, r.live, i + 1, register, size, address, kind, hitCount, callback, lengthMask, os)
  {
    var tid := ts0[i].threadId;
    assert WellFormed(ts) by {
      assert forall j :: 0 <= j < |ts| ==> ts[j].handle == ts0[j].handle && ts[j].threadId == ts0[j].threadId;
    }
    if 0 <= register <= 3 {
      SetThreadInWellFormed(ts, live, i, register, size, address, kind, hitCount, callback, mainThreadId, lengthMask, os);
      FilledStep(ts0, ts, i, register, size, address, kind, hitCount, callback);
      ArmedStep(ts0, live0, live, i, register, size, address, kind, lengthMask, os);
    }
  }

  lemma FilledStep(ts0: seq<Table>, ts: seq<Table>, i: nat, register: nat, size: int, address: nat, kind: nat,
                   hitCount: nat, callback: Callback)
    requires ValidTables(ts0) && WellFormed(ts0) && i < |ts0| == |ts| && register < 4
    requires forall j :: 0 <= j < |ts0| ==> ts[j] == if j < i then Filled(ts0[j], register, size, address, kind, hitCount, callback) else ts0[j]
    ensures var n := SetSlot(ts, i, register, Slot(register, size, address, kind, hitCount, callback, Some(ts0[i].threadId)));
      forall j :: 0 <= j < |ts0| ==> n[j] == if j < i + 1 then Filled(ts0[j], register, size, address, kind, hitCount, callback) else ts0[j]
  {
  }

  lemma ArmedStep(ts0: seq<Table>, live0: map<ThreadId, DebugRegs>, live: map<ThreadId, DebugRegs>, i: nat,
                  register: nat, size: int, address: nat, kind: nat, lengthMask: seq<nat>, os: Os)
    requires ValidTables(ts0) && WellFormed(ts0) && i < |ts0| && register < 4
    requires LiveValid(live0) && LiveValid(live) && |lengthMask| == MaxDataSize + 1 && live.Keys == live0.Keys
    requires forall t :: t in live0 ==>
      live[t] == if t in ThreadIds(ts0, i) then ArmedLive(live0, Some(t), register, size, address, kind, lengthMask, os)[t] else live0[t]
    ensures var n := ArmedLive(live, Some(ts0[i].threadId), register, size, address, kind, lengthMask, os);
      forall t :: t in live0 ==>
        n[t] == if t in ThreadIds(ts0, i + 1) then ArmedLive(live0, Some(t), register, size, address, kind, lengthMask, os)[t] else live0[t]
  {
    var tid := ts0[i].threadId;
    ThreadIdsStep(ts0, i);
    ThreadIdsDistinct(ts0, i);
    assert tid in live0 ==> live[tid] == live0[tid];
  }

  /** ClearThreadBreakpoint on a thread some table carries keeps the list length and every thread id. */
  lemma ClearThreadKeepsIds(ts: seq<Table>, live: map<ThreadId, DebugRegs>, tid: ThreadId, register: int, mainThreadId: ThreadId, os: Os)
    requires ValidTables(ts) && LiveValid(live)
    requires exists j :: 0 <= j < |ts| && ts[j].threadId == tid
    ensures var r := ClearThread(ts, live, tid, register, mainThreadId, os);
      |r.tables| == |ts| && forall j :: 0 <= j < |ts| ==> r.tables[j].threadId == ts[j].threadId
  {
    AcquireKeepsIds(ts, tid, mainThreadId, os);
  }

  /** On a thread with a table of a well-formed registry, ClearThreadBreakpoint works on that table and that thread only. */
  lemma ClearThreadInWellFormed(ts: seq<Table>, live: map<ThreadId, DebugRegs>, i: nat, register: int, mainThreadId: ThreadId, os: Os)
    requires ValidTables(ts) && LiveValid(live)
    requires WellFormed(ts) && i < |ts| && 0 <= register <= 3
    ensures var s := ts[i].slots[register];
      ClearThread(ts, live, ts[i].threadId, register, mainThreadId, os) ==
      if ClearAccepts(s.threadHandle, s.register, s.size, s.kind, live, os)
      then Registry(true, SetSlot(ts, i, register, Cleared(s)), DisarmedLive(live, s.threadHandle, s.register, s.size, s.kind, os), false)
      else Registry(false, ts, live, false)
  {
    FindInWellFormed(ts, i);
  }

  /** Thread `t`'s registers after ClearDebugRegister clears register `r` of a slot ClearBreakpoint wiped (size and type 0). */
  function DisarmedAt(live: map<ThreadId, DebugRegs>, t: ThreadId, r: int, os: Os): DebugRegs
    requires LiveValid(live) && t in live
  {
    if ClearAccepts(Some(t), r, 0, 0, live, os) then Disarm(live[t], r) else live[t]
  }

  /**
   * ClearBreakpoint's walk over a well-formed registry `ts0` after `i` tables:
   * those tables have slot `register` wiped, and each of their threads has
   * had the register its slot named cleared, as ClearDebugRegister does; the
   * rest is untouched.
   */
  ghost predicate ClearProgress(ts0: seq<Table>, live0: map<ThreadId, DebugRegs>, ts: seq<Table>, live: map<ThreadId, DebugRegs>,
                                i: nat, register: nat, os: Os)
    requires ValidTables(ts0) && LiveValid(live0) && register < 4
  {
    |ts| == |ts0| && live.Keys == live0.Keys &&
    (forall j :: 0 <= j < |ts0| ==> ts[j] == if j < i then WipedTable(ts0[j], register) else ts0[j]) &&
    (forall j :: 0 <= j < i && j < |ts0| && ts0[j].threadId in live0 ==>
      live[ts0[j].threadId] == DisarmedAt(live0, ts0[j].threadId, ts0[j].slots[register].register, os)) &&
    (forall t :: t in live0 && t !in ThreadIds(ts0, i) ==> live[t] == live0[t])
  }

  /** The slot update ClearBreakpoint makes on table `i` before calling ClearThreadBreakpoint. */
  function WipeSlot(ts: seq<Table>, i: nat, register: nat): (r: seq<Table>)
    requires ValidTables(ts) && i < |ts| && register < 4
    ensures ValidTables(r)
  {
    SetSlot(ts, i, register, Wiped(ts[i].slots[register], ts[i].handle))
  }

  /** One step of ClearBreakpoint's walk: wipe the next table's slot, then ClearThreadBreakpoint on its thread. */
  lemma ClearProgressStep(ts0: seq<Table>, live0: map<ThreadId, DebugRegs>, ts: seq<Table>, live: map<ThreadId, DebugRegs>,
                          i: nat, register: nat, mainThreadId: ThreadId, os: Os)
    requires ValidTables(ts0) && LiveValid(live0) && register < 4
    requires ValidTables(ts) && LiveValid(live)
    requires WellFormed(ts0) && i < |ts0|
    requires ClearProgress(ts0, live0, ts, live, i, register, os)
    ensures var r := ClearThread(WipeSlot(ts, i, register), live, ts0[i].threadId, register, mainThreadId, os);
      !r.created && ClearProgress(ts0, live0, r.tables, r.live, i + 1, register, os)
  {
    WipedStep(ts0, ts, i, register);
    ClearThreadOnWiped(ts0, ts, live, i, register, mainThreadId, os);
    DisarmedStep(ts0, live0, live, i, register, os);
  }

  /** ClearThreadBreakpoint right after ClearBreakpoint wiped table `i`'s slot keeps the tables and clears that thread's register. */
  lemma ClearThreadOnWiped(ts0: seq<Table>, ts: seq<Table>, live: map<ThreadId, DebugRegs>, i: nat, register: nat,
                           mainThreadId: ThreadId, os: Os)
    requires ValidTables(ts0) && ValidTables(ts) && LiveValid(live) && register < 4
    requires WellFormed(ts0) && i < |ts0| == |ts|
    requires forall j :: 0 <= j < |ts0| ==> ts[j].handle == ts0[j].handle && ts[j].threadId == ts0[j].threadId
    requires ts[i] == ts0[i]
    ensures var w := WipeSlot(ts, i, register);
      var r := ClearThread(w, live, ts0[i].threadId, register, mainThreadId, os);
      !r.created && r.tables == w
      && r.live == DisarmedLive(live, Some(ts0[i].threadId), ts0[i].slots[register].register, 0, 0, os)
  {
    var w := WipeSlot(ts, i, register);
    assert WellFormed(w) by {
      assert forall j :: 0 <= j < |w| ==> w[j].handle == ts0[j].handle && w[j].threadId == ts0[j].threadId;
    }
    ClearThreadInWellFormed(w, live, i, register, mainThreadId, os);
    var s := w[i].slots[register];
    assert s.threadHandle == Some(ts0[i].threadId) && s.register == ts0[i].slots[register].register && s.size == 0 && s.kind == 0;
    assert Cleared(s) == s;
    assert w[i].slots[register := s] == w[i].slots;
  }

  lemma WipedStep(ts0: seq<Table>, ts: seq<Table>, i: nat, register: nat)
    requires ValidTables(ts0) && ValidTables(ts) && i < |ts0| == |ts| && register < 4
    requires forall j :: 0 <= j < |ts0| ==> ts[j] == if j < i then WipedTable(ts0[j], register) else ts0[j]
    ensures var w := WipeSlot(ts, i, register);
      (forall j :: 0 <= j < |ts0| ==> w[j] == if j < i + 1 then WipedTable(ts0[j], register) else ts0[j]) &&
      SetSlot(w, i, register, Cleared(w[i].slots[register])) == w
  {
    var w := WipeSlot(ts, i, register);
    assert Cleared(w[i].slots[register]) == w[i].slots[register];
    assert w[i].slots[register := w[i].slots[register]] == w[i].slots;
  }

  lemma DisarmedStep(ts0: seq<Table>, live0: map<ThreadId, DebugRegs>, live: map<ThreadId, DebugRegs>, i: nat, register: nat, os: Os)
    requires ValidTables(ts0) && WellFormed(ts0) && i < |ts0| && register < 4
    requires LiveValid(live0) && LiveValid(live) && live.Keys == live0.Keys
    requires forall j :: 0 <= j < i && j < |ts0| && ts0[j].threadId in live0 ==>
      live[ts0[j].threadId] == DisarmedAt(live0, ts0[j].threadId, ts0[j].slots[register].register, os)
    requires forall t :: t in live0 && t !in ThreadIds(ts0, i) ==> live[t] == live0[t]
    ensures var tid := ts0[i].threadId;
      var n := DisarmedLive(live, Some(tid), ts0[i].slots[register].register, 0, 0, os);
      n.Keys == live0.Keys &&
      (forall j :: 0 <= j < i + 1 && j < |ts0| && ts0[j].threadId in live0 ==>
        n[ts0[j].threadId] == DisarmedAt(live0, ts0[j].threadId, ts0[j].slots[register].register, os)) &&
      (forall t :: t in live0 && t !in ThreadIds(ts0, i + 1) ==> n[t] == live0[t])
  {
    var tid := ts0[i].threadId;
    var r := ts0[i].slots[register].register;
    var n := DisarmedLive(live, Some(tid), r, 0, 0, os);
    ThreadIdsStep(ts0, i);
    ThreadIdsDistinct(ts0, i);
    DisarmedLiveElsewhere(live, tid, r, os);
    if tid in live0 {
      DisarmedLiveHere(live0, live, tid, r, os);
    }
    forall j | 0 <= j < i + 1 && j < |ts0| && ts0[j].threadId in live0
      ensures n[ts0[j].threadId] == DisarmedAt(live0, ts0[j].threadId, ts0[j].slots[register].register, os)
    {
      if j < i {
        assert ts0[j].threadId in ThreadIds(ts0, i);
      }
    }
  }

  /** ClearDebugRegister on thread `tid` leaves every other thread's registers alone. */
  lemma DisarmedLiveElsewhere(live: map<ThreadId, DebugRegs>, tid: ThreadId, r: int, os: Os)
    requires LiveValid(live)
    ensures var n := DisarmedLive(live, Some(tid), r, 0, 0, os);
      forall t :: t in live && t != tid ==> n[t] == live[t]
  {
  }

  /** On a thread whose registers are still the original ones, ClearDebugRegister gives what DisarmedAt says. */
  lemma DisarmedLiveHere(live0: map<ThreadId, DebugRegs>, live: map<ThreadId, DebugRegs>, tid: ThreadId, r: int, os: Os)
    requires LiveValid(live0) && LiveValid(live) && live.Keys == live0.Keys
    requires tid in live0 && live[tid] == live0[tid]
    ensures DisarmedLive(live, Some(tid), r, 0, 0, os)[tid] == DisarmedAt(live0, tid, r, os)
  {
    assert ClearAccepts(Some(tid), r, 0, 0, live, os) == ClearAccepts(Some(tid), r, 0, 0, live0, os);
  }

  // ---- range clearing ----

  /** A table with the registers in `hit` wiped as ClearBreakpoint wipes them. */
  function WipedRegisters(t: Table, hit: set<nat>): (r: Table)
    requires |t.slots| == 4
    ensures r.threadId == t.threadId && r.handle == t.handle && |r.slots| == 4
  {
    t.(slots := seq(4, q requires 0 <= q < 4 => if q in hit then Wiped(t.slots[q], t.handle) else t.slots[q]))
  }

  /** The registers some table has armed inside the range. */
  function RangeHits(ts: seq<Table>, base: nat, size: nat): set<nat>
    requires ValidTables(ts)
  {
    set q | 0 <= q < 4 && RangeHit(ts, q, base, size)
  }

  /** The registers ClearBreakpointsInRange has found in range before slot `r` of table `i`. */
  function HitSoFar(ts: seq<Table>, i: nat, r: nat, base: nat, size: nat): set<nat>
    requires ValidTables(ts) && i <= |ts|
  {
    set q | 0 <= q < 4 && (RangeHitBefore(ts, i, q, base, size) || (i < |ts| && q < r && InRange(ts[i].slots[q].address, base, size)))
  }

  lemma HitSoFarStep(ts: seq<Table>, i: nat, r: nat, base: nat, size: nat)
    requires ValidTables(ts) && i < |ts| && r < 4
    ensures HitSoFar(ts, i, r + 1, base, size) ==
      HitSoFar(ts, i, r, base, size) + (if InRange(ts[i].slots[r].address, base, size) then {r} else {})
  {
  }

  lemma HitSoFarNext(ts: seq<Table>, i: nat, base: nat, size: nat)
    requires ValidTables(ts) && i < |ts|
    ensures HitSoFar(ts, i, 4, base, size) == HitSoFar(ts, i + 1, 0, base, size)
  {
    forall q | 0 <= q < 4
      ensures RangeHitBefore(ts, i + 1, q, base, size) <==>
        RangeHitBefore(ts, i, q, base, size) || InRange(ts[i].slots[q].address, base, size)
    {
      if InRange(ts[i].slots[q].address, base, size) {
        assert RangeHitBefore(ts, i + 1, q, base, size);
      }
    }
  }

  lemma HitSoFarEnd(ts: seq<Table>, base: nat, size: nat)
    requires ValidTables(ts)
    ensures HitSoFar(ts, |ts|, 0, base, size) == RangeHits(ts, base, size)
  {
  }

  /** Wiping one more register of a table. */
  lemma WipeOneMore(t: Table, hit: set<nat>, r: nat)
    requires |t.slots| == 4 && r < 4 && r !in hit
    ensures WipedTable(WipedRegisters(t, hit), r) == WipedRegisters(t, hit + {r})
  {
    var a := WipedTable(WipedRegisters(t, hit), r);
    var b := WipedRegisters(t, hit + {r});
    assert a.slots == b.slots;
  }

  /** Once ClearBreakpoint has walked every table, each has slot `register` wiped. */
  lemma ClearProgressDone(ts0: seq<Table>, live0: map<ThreadId, DebugRegs>, ts: seq<Table>, live: map<ThreadId, DebugRegs>,
                          register: nat, os: Os)
    requires ValidTables(ts0) && LiveValid(live0) && register < 4
    requires ClearProgress(ts0, live0, ts, live, |ts0|, register, os)
    ensures |ts| == |ts0| && forall j :: 0 <= j < |ts0| ==> ts[j] == WipedTable(ts0[j], register)
  {
  }

  /** ClearBreakpointsInRange's tables after ClearBreakpoint on register `r`, found in range in table `i`. */
  lemma RangeWipeStep(ts0: seq<Table>, before: seq<Table>, after: seq<Table>, i: nat, r: nat, base: nat, size: nat)
    requires ValidTables(ts0) && ValidTables(before) && i < |ts0| == |before| == |after| && r < 4 && base != 0
    requires forall j :: 0 <= j < |ts0| ==> before[j] == WipedRegisters(ts0[j], HitSoFar(ts0, i, r, base, size))
    requires forall j :: 0 <= j < |ts0| ==> after[j] == WipedTable(before[j], r)
    requires InRange(before[i].slots[r].address, base, size)
    ensures forall j :: 0 <= j < |ts0| ==> after[j] == WipedRegisters(ts0[j], HitSoFar(ts0, i, r + 1, base, size))
  {
    var hit := HitSoFar(ts0, i, r, base, size);
    HitSoFarStep(ts0, i, r, base, size);
    assert r !in hit;
    forall j | 0 <= j < |ts0|
      ensures after[j] == WipedRegisters(ts0[j], hit + {r})
    {
      WipeOneMore(ts0[j], hit, r);
    }
  }

  /** The registers that slots `hit` of table `t` name: the ones ClearDebugRegister clears on its thread. */
  function NamedRegisters(t: Table, hit: set<nat>): set<int>
    requires |t.slots| == 4
  {
    set q | q in hit && q < 4 :: t.slots[q].register
  }

  /**
   * Table `t`'s thread once ClearBreakpointsInRange has called ClearBreakpoint
   * on the registers `hit`: the registers its slots name are cleared when
   * its context can be read and written back, and otherwise nothing changes.
   */
  function RangeDisarmed(live0: map<ThreadId, DebugRegs>, t: Table, hit: set<nat>, os: Os): DebugRegs
    requires LiveValid(live0) && |t.slots| == 4 && t.threadId in live0
  {
    var d := live0[t.threadId];
    if t.threadId in os.readable && t.threadId in os.writable then DisarmAll(d, NamedRegisters(t, hit)) else d
  }

  /**
   * The live registers of a well-formed registry `ts0` after ClearBreakpoint
   * on each register of `hit`: every table's thread is RangeDisarmed, and
   * every thread without a table is untouched.
   */
  ghost predicate RangeCleared(ts0: seq<Table>, live0: map<ThreadId, DebugRegs>, live: map<ThreadId, DebugRegs>,
                               hit: set<nat>, os: Os)
    requires ValidTables(ts0) && LiveValid(live0)
  {
    live.Keys == live0.Keys &&
    (forall j :: 0 <= j < |ts0| && ts0[j].threadId in live0 ==> live[ts0[j].threadId] == RangeDisarmed(live0, ts0[j], hit, os)) &&
    (forall t :: t in live0 && t !in ThreadIds(ts0, |ts0|) ==> live[t] == live0[t])
  }

  /** Before any register is cleared, the live registers are the original ones. */
  lemma RangeClearedStart(ts0: seq<Table>, live0: map<ThreadId, DebugRegs>, os: Os)
    requires ValidTables(ts0) && LiveValid(live0)
    ensures RangeCleared(ts0, live0, live0, {}, os)
  {
    forall j | 0 <= j < |ts0| && ts0[j].threadId in live0
      ensures live0[ts0[j].threadId] == RangeDisarmed(live0, ts0[j], {}, os)
    {
      assert NamedRegisters(ts0[j], {}) == {};
      DisarmAllNone(live0[ts0[j].threadId]);
    }
  }

  /**
   * One ClearBreakpoint on register `r`, over tables whose thread ids and
   * slot-`r` registers are those of `ts0`, adds `r` to the cleared registers.
   */
  lemma RangeClearedStep(ts0: seq<Table>, live0: map<ThreadId, DebugRegs>, before: seq<Table>, liveBefore: map<ThreadId, DebugRegs>,
                         after: seq<Table>, liveAfter: map<ThreadId, DebugRegs>, hit: set<nat>, r: nat, os: Os)
    requires ValidTables(ts0) && LiveValid(live0) && WellFormed(ts0) && r < 4
    requires ValidTables(before) && LiveValid(liveBefore) && |before| == |ts0|
    requires forall j :: 0 <= j < |ts0| ==>
      before[j].threadId == ts0[j].threadId && before[j].slots[r].register == ts0[j].slots[r].register
    requires RangeCleared(ts0, live0, liveBefore, hit, os)
    requires ClearProgress(before, liveBefore, after, liveAfter, |before|, r, os)
    ensures RangeCleared(ts0, live0, liveAfter, hit + {r}, os)
  {
    assert ThreadIds(before, |before|) == ThreadIds(ts0, |ts0|) by {
      forall t | t in ThreadIds(ts0, |ts0|)
        ensures t in ThreadIds(before, |before|)
      {
        var j :| 0 <= j < |ts0| && ts0[j].threadId == t;
        assert before[j].threadId == t;
      }
    }
    forall j | 0 <= j < |ts0| && ts0[j].threadId in live0
      ensures liveAfter[ts0[j].threadId] == RangeDisarmed(live0, ts0[j], hit + {r}, os)
    {
      assert before[j].threadId == ts0[j].threadId;
      assert liveAfter[before[j].threadId] == DisarmedAt(liveBefore, before[j].threadId, before[j].slots[r].register, os);
      RangeDisarmedStep(live0, liveBefore, ts0[j], hit, r, os);
    }
  }

  /** ClearDebugRegister on a thread RangeDisarmed for `hit`, on the register its slot `r` names, gives RangeDisarmed for `hit` and `r`. */
  lemma RangeDisarmedStep(live0: map<ThreadId, DebugRegs>, liveBefore: map<ThreadId, DebugRegs>, t: Table, hit: set<nat>, r: nat, os: Os)
    requires LiveValid(live0) && LiveValid(liveBefore) && liveBefore.Keys == live0.Keys
    requires |t.slots| == 4 && r < 4 && t.threadId in live0
    requires liveBefore[t.threadId] == RangeDisarmed(live0, t, hit, os)
    ensures DisarmedAt(liveBefore, t.threadId, t.slots[r].register, os) == RangeDisarmed(live0, t, hit + {r}, os)
  {
    var reg := t.slots[r].register;
    assert NamedRegisters(t, hit + {r}) == NamedRegisters(t, hit) + {reg};
    DisarmAllStep(live0[t.threadId], NamedRegisters(t, hit), reg);
  }

  /** A table whose slots before `upto` that lie in the range are emptied in full. */
  function EmptiedInRange(t: Table, base: nat, size: nat, upto: nat): (r: Table)
    requires |t.slots| == 4
    ensures r.threadId == t.threadId && r.handle == t.handle && |r.slots| == 4
  {
    t.(slots := seq(4, q requires 0 <= q < 4 =>
      if q < upto && InRange(t.slots[q].address, base, size) then Emptied(t.slots[q]) else t.slots[q]))
  }

  /** Registers `d` are `d0` with exactly the registers in `hit` cleared. */
  predicate DisarmedExactly(d: DebugRegs, d0: DebugRegs, hit: set<nat>)
    requires ValidRegs(d) && ValidRegs(d0)
  {
    SameControl(d, d0) &&
    forall q :: 0 <= q < 4 ==>
      if q in hit then d.dr[q] == 0 && !d.dr7.local[q] && d.dr7.rwe[q] == 0 && d.dr7.len[q] == 0
      else SameRegister(d, d0, q)
  }

  /** Clearing one more register keeps DisarmedExactly, with that register added. */
  lemma DisarmOneMore(d: DebugRegs, d0: DebugRegs, hit: set<nat>, r: nat)
    requires ValidRegs(d) && ValidRegs(d0) && r < 4
    requires DisarmedExactly(d, d0, hit)
    ensures DisarmedExactly(Disarm(d, r), d0, hit + {r})
  {
  }

  /** ContextClearBreakpointsInRange's tables after visiting slot `r` of table `i`. */
  ghost predicate EmptiedUpTo(ts0: seq<Table>, ts: seq<Table>, i: nat, r: nat, base: nat, size: nat)
    requires ValidTables(ts0)
  {
    |ts| == |ts0| &&
    forall j :: 0 <= j < |ts0| ==> ts[j] == EmptiedInRange(ts0[j], base, size, if j < i then 4 else if j == i then r else 0)
  }

  lemma EmptiedUpToStep(ts0: seq<Table>, ts: seq<Table>, i: nat, r: nat, base: nat, size: nat)
    requires ValidTables(ts0) && ValidTables(ts) && i < |ts0| && r < 4
    requires EmptiedUpTo(ts0, ts, i, r, base, size)
    ensures ts[i].slots[r] == ts0[i].slots[r]
    ensures InRange(ts[i].slots[r].address, base, size) ==>
      EmptiedUpTo(ts0, SetSlot(ts, i, r, Emptied(ts[i].slots[r])), i, r + 1, base, size)
    ensures !InRange(ts[i].slots[r].address, base, size) ==> EmptiedUpTo(ts0, ts, i, r + 1, base, size)
  {
    var e := EmptiedInRange(ts0[i], base, size, r + 1);
    if InRange(ts[i].slots[r].address, base, size) {
      var ts' := SetSlot(ts, i, r, Emptied(ts[i].slots[r]));
      assert ts'[i].slots == e.slots;
    } else {
      assert ts[i].slots == e.slots;
    }
  }

  lemma EmptiedUpToNext(ts0: seq<Table>, ts: seq<Table>, i: nat, base: nat, size: nat)
    requires ValidTables(ts0) && i < |ts0|
    requires EmptiedUpTo(ts0, ts, i, 4, base, size)
    ensures EmptiedUpTo(ts0, ts, i + 1, 0, base, size)
  {
  }

  // ---- clearing everything ----

  /** Some table before `n` holds a handle that opens thread `t`. */
  predicate HandledBefore(ts: seq<Table>, n: nat, t: ThreadId)
  {
    exists j :: 0 <= j < n && j < |ts| && ts[j].handle == Some(t)
  }

  /** Within ClearAllBreakpoints' walk, table `i` stops it exactly when `i` is the first stuck table. */
  lemma StuckAt(ts: seq<Table>, live: map<ThreadId, DebugRegs>, live0: map<ThreadId, DebugRegs>, os: Os, i: nat)
    requires live.Keys == live0.Keys && i < |ts| && i <= FirstStuck(ts, live0, os)
    ensures Stuck(ts[i], live, os) <==> i == FirstStuck(ts, live0, os)
  {
    StuckKeys(ts[i], live, live0, os);
  }

  /** Stuck reads only the keys of the live register map. */
  lemma StuckKeys(t: Table, live: map<ThreadId, DebugRegs>, live0: map<ThreadId, DebugRegs>, os: Os)
    requires live.Keys == live0.Keys
    ensures Stuck(t, live, os) == Stuck(t, live0, os)
  {
  }

  /** The first `m` tables of `ts0` with their slots zeroed, the rest as they were. */
  ghost predicate ZeroedUpTo(ts0: seq<Table>, ts: seq<Table>, m: nat)
  {
    |ts| == |ts0| && forall j :: 0 <= j < |ts| ==> ts[j] == (if j < m then ZeroSlots(ts0[j]) else ts0[j])
  }

  /** The threads of the first `n` tables' handles with all debug registers zero, the rest as they were. */
  ghost predicate ClearedUpTo(ts0: seq<Table>, live0: map<ThreadId, DebugRegs>, live: map<ThreadId, DebugRegs>, n: nat)
  {
    live.Keys == live0.Keys &&
    forall t :: t in live ==> live[t] == (if HandledBefore(ts0, n, t) then ClearedRegs else live0[t])
  }

  lemma ZeroedUpToStep(ts0: seq<Table>, ts: seq<Table>, i: nat)
    requires ZeroedUpTo(ts0, ts, i) && i < |ts|
    ensures ZeroedUpTo(ts0, ts[i := ZeroSlots(ts[i])], i + 1)
  {
  }

  lemma ClearedUpToStep(ts0: seq<Table>, live0: map<ThreadId, DebugRegs>, live: map<ThreadId, DebugRegs>, i: nat, h: ThreadId)
    requires ClearedUpTo(ts0, live0, live, i) && i < |ts0| && ts0[i].handle == Some(h) && h in live
    ensures ClearedUpTo(ts0, live0, live[h := ClearedRegs], i + 1)
  {
    var live' := live[h := ClearedRegs];
    forall u | u in live'
      ensures live'[u] == (if HandledBefore(ts0, i + 1, u) then ClearedRegs else live0[u])
    {
      if u != h && HandledBefore(ts0, i + 1, u) {
        var j :| 0 <= j < i + 1 && j < |ts0| && ts0[j].handle == Some(u);
        assert HandledBefore(ts0, i, u);
      }
      if u == h {
        assert HandledBefore(ts0, i + 1, u);
      }
    }
  }

  // ---- operations through an exception handler's CONTEXT ----

  /** A CONTEXT operation's result: the value returned, the tables, the live registers and the CONTEXT's registers. */
  datatype CtxOutcome = CtxOutcome(ok: bool, tables: seq<Table>, live: map<ThreadId, DebugRegs>, regs: DebugRegs)

  /** The handle held by the current thread's table, if it has one. */
  function CurrentHandle(ts: seq<Table>, current: ThreadId): Option<ThreadId>
  {
    match FindTable(ts, current)
    case None => None
    case Some(k) => ts[k].handle
  }

  /**
   * ContextSetDebugRegisterEx: a rejected request changes nothing; otherwise
   * the register is armed in the CONTEXT, which is then (unless told not to)
   * written to the current thread's handle.
   */
  function ContextSetRegister(ts: seq<Table>, live: map<ThreadId, DebugRegs>, regs: DebugRegs, current: ThreadId,
                              register: int, size: int, address: nat, kind: nat, noSet: bool,
                              lengthMask: seq<nat>, os: Os): (r: CtxOutcome)
    requires ValidRegs(regs) && LiveValid(live) && |lengthMask| == MaxDataSize + 1
    ensures ValidRegs(r.regs) && LiveValid(r.live) && r.tables == ts && r.live.Keys == live.Keys
  {
    if !ValidRequest(register, size, kind) then CtxOutcome(false, ts, live, regs)
    else
      var armed := Arm(regs, register, address, LengthBits(lengthMask, size, kind), kind);
      var h := CurrentHandle(ts, current);
      if noSet then CtxOutcome(true, ts, live, armed)
      else if CanSet(h, live, os) then CtxOutcome(true, ts, live[h.value := armed], armed)
      else CtxOutcome(false, ts, live, armed)
  }

  /**
   * ContextSetThreadBreakpointEx: an out-of-range register is refused; when
   * the register write fails the call still reports TRUE and leaves the slot
   * alone; otherwise the current thread's slot records the request.
   */
  function ContextSetThread(ts: seq<Table>, live: map<ThreadId, DebugRegs>, regs: DebugRegs, current: ThreadId,
                            register: int, size: int, address: nat, kind: nat, hitCount: nat, callback: Callback,
                            noSet: bool, lengthMask: seq<nat>, os: Os): (r: CtxOutcome)
    requires ValidTables(ts) && ValidRegs(regs) && LiveValid(live) && |lengthMask| == MaxDataSize + 1
    ensures ValidTables(r.tables) && ValidRegs(r.regs) && LiveValid(r.live) && r.live.Keys == live.Keys
    ensures |r.tables| == |ts| && forall j :: 0 <= j < |ts| ==> r.tables[j].handle == ts[j].handle
  {
    if !(0 <= register <= 3) then CtxOutcome(false, ts, live, regs)
    else
      var w := ContextSetRegister(ts, live, regs, current, register, size, address, kind, noSet, lengthMask, os);
      if !w.ok then w.(ok := true)
      else match FindTable(ts, current)
        case None => w.(ok := false)
        case Some(k) => w.(tables := SetSlot(ts, k, register, Slot(register, size, address, kind, hitCount, callback, ts[k].handle)))
  }

  /**
   * ContextClearBreakpoint on slot `r` of table `k`: clear the register the
   * slot names in the CONTEXT, write the CONTEXT to the slot's handle, and
   * only then empty the slot, keeping its callback.
   */
  function ContextClearSlot(ts: seq<Table>, live: map<ThreadId, DebugRegs>, regs: DebugRegs, k: nat, r: nat, os: Os): (o: CtxOutcome)
    requires ValidTables(ts) && ValidRegs(regs) && LiveValid(live) && k < |ts| && r < 4
    ensures ValidTables(o.tables) && ValidRegs(o.regs) && LiveValid(o.live) && o.live.Keys == live.Keys
    ensures |o.tables| == |ts| && forall j :: 0 <= j < |ts| ==> o.tables[j].handle == ts[j].handle
  {
    var s := ts[k].slots[r];
    var cleared := DisarmIfValid(regs, s.register);
    if CanSet(s.threadHandle, live, os) then CtxOutcome(true, SetSlot(ts, k, r, Unarmed(s)), live[s.threadHandle.value := cleared], cleared)
    else CtxOutcome(false, ts, live, cleared)
  }

  /**
   * When the register write fails, because the request is invalid or the
   * CONTEXT cannot be written to the current thread, ContextSetThreadBreakpoint
   * still reports success, and nothing is recorded in the tables or the threads.
   */
  lemma ContextSetThreadReportsFailedWrite(ts: seq<Table>, live: map<ThreadId, DebugRegs>, regs: DebugRegs, current: ThreadId,
                                           register: int, size: int, address: nat, kind: nat, hitCount: nat, callback: Callback,
                                           lengthMask: seq<nat>, os: Os)
    requires ValidTables(ts) && ValidRegs(regs) && LiveValid(live) && |lengthMask| == MaxDataSize + 1
    requires 0 <= register <= 3
    requires !ValidRequest(register, size, kind) || !CanSet(CurrentHandle(ts, current), live, os)
    ensures var o := ContextSetThread(ts, live, regs, current, register, size, address, kind, hitCount, callback, false, lengthMask, os);
      o.ok && o.tables == ts && o.live == live
  {
  }

  /**
   * Set-then-look-up: a ContextSetThreadBreakpoint whose CONTEXT can be written
   * to the current thread succeeds; the thread's table then holds the request
   * in that register, and the thread's live registers have it armed, as the
   * CONTEXT does.
   */
  lemma ContextSetThreadRecords(ts: seq<Table>, live: map<ThreadId, DebugRegs>, regs: DebugRegs, current: ThreadId,
                                register: int, size: int, address: nat, kind: nat, hitCount: nat, callback: Callback,
                                lengthMask: seq<nat>, os: Os)
    requires ValidTables(ts) && ValidRegs(regs) && LiveValid(live) && |lengthMask| == MaxDataSize + 1
    requires ValidRequest(register, size, kind) && CanSet(CurrentHandle(ts, current), live, os)
    ensures var o := ContextSetThread(ts, live, regs, current, register, size, address, kind, hitCount, callback, false, lengthMask, os);
      var k := FindTable(o.tables, current);
      var h := CurrentHandle(ts, current);
      o.ok && k.Some? && o.tables[k.value].handle == h && h.value in o.live &&
      o.tables[k.value].slots[register] == Slot(register, size, address, kind, hitCount, callback, h) &&
      o.live[h.value] == o.regs &&
      o.regs.dr[register] == address && o.regs.dr7.local[register] && o.regs.dr7.rwe[register] == kind
  {
    var o := ContextSetThread(ts, live, regs, current, register, size, address, kind, hitCount, callback, false, lengthMask, os);
    var k :| FindTable(ts, current) == Some(k);
    var h := ts[k].handle;
    assert o.tables == SetSlot(ts, k, register, Slot(register, size, address, kind, hitCount, callback, h));
    FindTableByHandles(ts, o.tables, current);
  }

  /**
   * Set-then-clear through the same CONTEXT: the register is disarmed as if
   * it had never been set, in the CONTEXT and in the thread, the slot is free
   * again, and its callback stays.
   */
  lemma ContextClearUndoesSet(ts: seq<Table>, live: map<ThreadId, DebugRegs>, regs: DebugRegs, current: ThreadId,
                              register: int, size: int, address: nat, kind: nat, hitCount: nat, callback: Callback,
                              lengthMask: seq<nat>, os: Os)
    requires ValidTables(ts) && ValidRegs(regs) && LiveValid(live) && |lengthMask| == MaxDataSize + 1
    requires ValidRequest(register, size, kind) && CanSet(CurrentHandle(ts, current), live, os)
    ensures var o := ContextSetThread(ts, live, regs, current, register, size, address, kind, hitCount, callback, false, lengthMask, os);
      var k := FindTable(o.tables, current);
      var h := CurrentHandle(ts, current);
      k.Some? && h.Some? &&
      var c := ContextClearSlot(o.tables, o.live, o.regs, k.value, register, os);
      c.ok && c.regs == Disarm(regs, register) && h.value in c.live && c.live[h.value] == Disarm(regs, register) &&
      c.tables[k.value].slots[register].address == 0 && c.tables[k.value].slots[register].callback == callback
  {
    ContextSetThreadRecords(ts, live, regs, current, register, size, address, kind, hitCount, callback, lengthMask, os);
    DisarmUndoesArm(regs, register, address, LengthBits(lengthMask, size, kind), kind);
  }

  /** Some slot already holds a breakpoint with this size, address, type and hit count. */
  predicate HasIdentical(slots: seq<Slot>, size: int, address: nat, kind: nat, hitCount: nat)
  {
    exists i :: 0 <= i < |slots| && slots[i].size == size && slots[i].address == address &&
      slots[i].kind == kind && slots[i].hitCount == hitCount
  }

  /** Slot `bp` is numbered `bp` and describes what the CONTEXT has in register `bp`. */
  predicate MatchesContext(slots: seq<Slot>, regs: DebugRegs, bp: nat)
    requires |slots| == 4 && ValidRegs(regs) && bp < 4
  {
    slots[bp].register == bp && slots[bp].address == regs.dr[bp] && slots[bp].kind == regs.dr7.rwe[bp]
  }

  /** The lowest register whose slot matches the CONTEXT, 4 when none does. */
  function CurrentMatch(slots: seq<Slot>, regs: DebugRegs): (bp: nat)
    requires |slots| == 4 && ValidRegs(regs)
    ensures bp <= 4
    ensures bp < 4 ==> MatchesContext(slots, regs, bp)
    ensures forall q :: 0 <= q < bp ==> !MatchesContext(slots, regs, q)
  {
    if MatchesContext(slots, regs, 0) then 0
    else if MatchesContext(slots, regs, 1) then 1
    else if MatchesContext(slots, regs, 2) then 2
    else if MatchesContext(slots, regs, 3) then 3
    else 4
  }

  /** The lowest register whose Dr6 status bit is set and whose slot is numbered after it, 4 when none is. */
  function ClearableHit(slots: seq<Slot>, dr6: set<nat>): (bp: nat)
    requires |slots| == 4
    ensures bp <= 4
    ensures bp < 4 ==> Hit(dr6, bp) && slots[bp].register == bp
    ensures forall q :: 0 <= q < bp ==> !(Hit(dr6, q) && slots[q].register == q)
  {
    if Hit(dr6, 0) && slots[0].register == 0 then 0
    else if Hit(dr6, 1) && slots[1].register == 1 then 1
    else if Hit(dr6, 2) && slots[2].register == 2 then 2
    else if Hit(dr6, 3) && slots[3].register == 3 then 3
    else 4
  }

  // ---- a new thread inherits the main table (InitNewThreadBreakpoints) ----

  /**
   * The new thread's table after copying the head table's armed slots below
   * register `n`: those slots carry the head's size, address, type, hit count
   * and callback with the new thread's handle; the others stay as creation
   * left them.
   */
  function InheritedUpTo(head: Table, tid: ThreadId, n: nat): (t: Table)
    requires |head.slots| == 4
    ensures t.threadId == tid && t.handle == Some(tid) && |t.slots| == 4
  {
    Table(tid, Some(tid), seq(4, r requires 0 <= r < 4 =>
      var s := head.slots[r];
      if r < n && s.address != 0 then Slot(r, s.size, s.address, s.kind, s.hitCount, s.callback, Some(tid))
      else ZeroSlot.(register := r, threadHandle := Some(tid))))
  }

  /** The new thread's live registers after arming the head table's armed slots below register `n`. */
  function InheritLive(live: map<ThreadId, DebugRegs>, head: Table, tid: ThreadId, n: nat, lengthMask: seq<nat>, os: Os)
    : (r: map<ThreadId, DebugRegs>)
    requires LiveValid(live) && |head.slots| == 4 && n <= 4 && |lengthMask| == MaxDataSize + 1
    ensures LiveValid(r) && r.Keys == live.Keys
  {
    if n == 0 then live
    else
      var l := InheritLive(live, head, tid, n - 1, lengthMask, os);
      var s := head.slots[n - 1];
      if s.address != 0 then ArmedLive(l, Some(tid), n - 1, s.size, s.address, s.kind, lengthMask, os) else l
  }

  /** Before any copy the new table is the one creation appends. */
  lemma InheritedStart(head: Table, tid: ThreadId)
    requires |head.slots| == 4
    ensures InheritedUpTo(head, tid, 0) == Adopt(ZeroTable, tid)
  {
    assert InheritedUpTo(head, tid, 0).slots == Adopt(ZeroTable, tid).slots;
  }

  /** Copying slot `r` extends the inherited table by one register. */
  lemma InheritedStep(ts: seq<Table>, head: Table, tid: ThreadId, r: nat)
    requires |head.slots| == 4 && r < 4
    ensures var s := head.slots[r];
      var t := ts + [InheritedUpTo(head, tid, r)];
      (s.address != 0 ==>
        SetSlot(t, |ts|, r, Slot(r, s.size, s.address, s.kind, s.hitCount, s.callback, Some(tid))) ==
        ts + [InheritedUpTo(head, tid, r + 1)]) &&
      (s.address == 0 ==> t == ts + [InheritedUpTo(head, tid, r + 1)])
  {
    var s := head.slots[r];
    var a := InheritedUpTo(head, tid, r);
    var b := InheritedUpTo(head, tid, r + 1);
    if s.address != 0 {
      assert a.slots[r := Slot(r, s.size, s.address, s.kind, s.hitCount, s.callback, Some(tid))] == b.slots;
    } else {
      assert a.slots == b.slots;
    }
  }

  /**
   * A fresh debugger's initialisation leaves a well-formed registry holding
   * the main thread alone, or, when the head cannot be allocated, no list.
   */
  lemma InitialiseFresh(main: ThreadId, os: Os)
    requires main in os.openable
    ensures var a := CreateOutcome([], main, main, os);
      (a.index.Some? <==> os.allocates) &&
      (os.allocates ==> a.index == Some(0) && a.tables == [Adopt(ZeroTable, main)] && WellFormed(a.tables)) &&
      (!os.allocates ==> a.tables == [])
  {
    if os.allocates {
      var t0 := Seeded([], main);
      assert ReuseIndex(t0, main) == 0;
      assert !HandleClash(t0, main);
    }
  }

  /**
   * The capemon debugger's state: MainThreadBreakpointList, the live
   * threads' debug registers, g_config.debugger, the main thread id, the
   * single-step handler, DebuggerInitialised and the LengthMask table.
   */
  class Debugger {
    var tables: seq<Table>
    var live: map<ThreadId, DebugRegs>
    var enabled: bool
    var initialised: bool
    var mainThreadId: ThreadId
    var singleStepHandler: Callback
    const lengthMask: seq<nat>

    ghost predicate Valid()
      reads this
    {
      |lengthMask| == MaxDataSize + 1 && ValidTables(tables) && LiveValid(live)
    }

    constructor (lengthMask: seq<nat>, live: map<ThreadId, DebugRegs>)
      requires |lengthMask| == MaxDataSize + 1 && LiveValid(live)
      ensures Valid()
      ensures this.lengthMask == lengthMask && this.live == live
      ensures tables == [] && !enabled && !initialised && mainThreadId == 0 && singleStepHandler == 0
    {
      this.lengthMask := lengthMask;
      this.live := live;
      tables := [];
      enabled := false;
      initialised := false;
      mainThreadId := 0;
      singleStepHandler := 0;
    }

    /** GetThreadBreakpoints: walk the list for the first table whose handle opens `tid`. */
    method GetThreadBreakpoints(tid: ThreadId) returns (k: Option<nat>)
      ensures k == FindTable(tables, tid)
    {
      var i := 0;
      while i < |tables|
        invariant i <= |tables|
        invariant forall j :: 0 <= j < i ==> HandleThreadId(tables[j].handle) != tid
      {
        if HandleThreadId(tables[i].handle) == tid {
          FindTableFirst(tables, tid, i);
          return Some(i);
        }
        i := i + 1;
      }
      return None;
    }

    /**
     * CreateThreadBreakpoints: seed an empty list with a head for the main
     * thread, walk for a table to reuse (refusing when a handle to the thread
     * is met first), append one when none carries the id, open the thread,
     * and number the slots. Either allocation may fail, and then nothing is
     * created.
     */
    method CreateThreadBreakpoints(tid: ThreadId, os: Os) returns (k: Option<nat>)
      requires Valid()
      modifies this`tables, this`enabled
      ensures Valid()
      ensures var a := CreateOutcome(old(tables), tid, mainThreadId, os);
        k == a.index && tables == a.tables
      ensures enabled == (old(enabled) || k.Some?)
    {
      if tables == [] {
        if !os.allocates {
          return None;
        }
        tables := [ZeroTable.(threadId := mainThreadId)];
      }
      var i := 0;
      while i < |tables|
        invariant i <= |tables|
        invariant forall j :: 0 <= j < i ==> tables[j].handle != Some(tid) && tables[j].threadId != tid
      {
        if tables[i].handle.Some? && HandleThreadId(tables[i].handle) == tid {
          assert ReuseIndex(tables, tid) >= i;
          assert HandleClash(tables, tid);
          return None;
        }
        if tables[i].threadId == tid {
          break;
        }
        i := i + 1;
      }
      assert i == ReuseIndex(tables, tid);
      assert !HandleClash(tables, tid);
      if i == |tables| && !os.allocates {
        return None;
      }
      if tid !in os.openable {
        return None;
      }
      if i < |tables| {
        tables := tables[i := Adopt(tables[i], tid)];
      } else {
        tables := tables + [Adopt(ZeroTable, tid)];
      }
      enabled := true;
      return Some(i);
    }

    /** The lookup-else-create step that opens SetThreadBreakpoint, ClearThreadBreakpoint and the next-available searches. */
    method AcquireTable(tid: ThreadId, os: Os) returns (k: Option<nat>)
      requires Valid()
      modifies this`tables, this`enabled
      ensures Valid()
      ensures var a := AcquireOutcome(old(tables), tid, mainThreadId, os);
        k == a.index && tables == a.tables && enabled == (old(enabled) || a.created)
    {
      k := GetThreadBreakpoints(tid);
      if k.None? {
        k := CreateThreadBreakpoints(tid, os);
      }
    }

    /** SetDebugRegister: validate the request, read the thread's context, arm the register, write the context back. */
    method SetDebugRegister(h: Option<ThreadId>, register: int, size: int, address: nat, kind: nat, os: Os) returns (ok: bool)
      requires Valid()
      modifies this`live
      ensures Valid()
      ensures ok == SetAccepts(h, register, size, kind, old(live), os)
      ensures live == ArmedLive(old(live), h, register, size, address, kind, lengthMask, os)
    {
      if kind > 3 || kind == 2 || register < 0 || register > 3 || size < 0 || size > MaxDataSize {
        return false;
      }
      if !CanGet(h, live, os) {
        return false;
      }
      var regs := live[h.value];
      var length := LengthBits(lengthMask, size, kind);
      regs := Arm(regs, register, address, length, kind);
      if !CanSet(h, live, os) {
        return false;
      }
      live := live[h.value := regs];
      return true;
    }

    /**
     * ClearDebugRegister: check type, register and size (type 2 is let
     * through), read the thread's context, clear the register, write back.
     * The address only matters to the 32-bit build's WoW64 workaround.
     */
    method ClearDebugRegister(h: Option<ThreadId>, register: int, size: int, address: nat, kind: nat, os: Os) returns (ok: bool)
      requires Valid()
      modifies this`live
      ensures Valid()
      ensures ok == ClearAccepts(h, register, size, kind, old(live), os)
      ensures live == DisarmedLive(old(live), h, register, size, kind, os)
    {
      if kind > 3 || register < 0 || register > 3 || size < 0 || size > MaxDataSize {
        return false;
      }
      if !CanGet(h, live, os) {
        return false;
      }
      var regs := Disarm(live[h.value], register);
      if !CanSet(h, live, os) {
        return false;
      }
      live := live[h.value := regs];
      return true;
    }

    /** SetThreadBreakpoint (see `SetThread`). */
    method SetThreadBreakpoint(tid: ThreadId, register: int, size: int, address: nat, kind: nat, hitCount: nat,
                               callback: Callback, os: Os) returns (ok: bool)
      requires Valid()
      modifies this`tables, this`live, this`enabled
      ensures Valid()
      ensures var r := SetThread(old(tables), old(live), tid, register, size, address, kind, hitCount, callback, mainThreadId, lengthMask, os);
        Registry(ok, tables, live, r.created) == r && enabled == (old(enabled) || r.created)
    {
      ghost var r := SetThread(tables, live, tid, register, size, address, kind, hitCount, callback, mainThreadId, lengthMask, os);
      if register > 3 || register < 0 {
        assert r == Registry(false, tables, live, false);
        return false;
      }
      ghost var live0 := live;
      ghost var a := AcquireOutcome(tables, tid, mainThreadId, os);
      var k := AcquireTable(tid, os);
      if k.None? {
        assert r == Registry(false, tables, live0, a.created);
        return false;
      }
      var i := k.value;
      var h := tables[i].handle;
      if h.None? {
        assert r == Registry(false, tables, live0, a.created);
        return false;
      }
      tables := SetSlot(tables, i, register, Slot(register, size, address, kind, hitCount, callback, h));
      var _ := SetDebugRegister(h, register, size, address, kind, os);
      assert r == Registry(true, tables, live, a.created);
      return true;
    }

    /** ClearThreadBreakpoint (see `ClearThread`). */
    method ClearThreadBreakpoint(tid: ThreadId, register: int, os: Os) returns (ok: bool)
      requires Valid()
      modifies this`tables, this`live, this`enabled
      ensures Valid()
      ensures var r := ClearThread(old(tables), old(live), tid, register, mainThreadId, os);
        Registry(ok, tables, live, r.created) == r && enabled == (old(enabled) || r.created)
    {
      ghost var r := ClearThread(tables, live, tid, register, mainThreadId, os);
      if register > 3 || register < 0 {
        assert r == Registry(false, tables, live, false);
        return false;
      }
      ghost var a := AcquireOutcome(tables, tid, mainThreadId, os);
      var k := AcquireTable(tid, os);
      assert r.created == a.created;
      if k.None? {
        assert r == Registry(false, tables, live, a.created);
        return false;
      }
      var i := k.value;
      if tables[i].handle.None? {
        assert r == Registry(false, tables, live, a.created);
        return false;
      }
      ok := ClearTableSlot(i, register, os);
      assert r == Registry(ok, tables, live, a.created);
    }

    /** The end of ClearThreadBreakpoint on table `i`: clear the registers slot `register` names, then, on success, the slot. */
    method ClearTableSlot(i: nat, register: int, os: Os) returns (ok: bool)
      requires Valid() && i < |tables| && 0 <= register <= 3
      modifies this`tables, this`live
      ensures Valid()
      ensures var s := old(tables[i].slots[register]);
        ok == ClearAccepts(s.threadHandle, s.register, s.size, s.kind, old(live), os) &&
        live == DisarmedLive(old(live), s.threadHandle, s.register, s.size, s.kind, os) &&
        tables == (if ok then SetSlot(old(tables), i, register, Cleared(s)) else old(tables))
    {
      var s := tables[i].slots[register];
      ok := ClearDebugRegister(s.threadHandle, s.register, s.size, s.address, s.kind, os);
      if ok {
        tables := SetSlot(tables, i, register, Cleared(s));
      }
    }


    /**
     * SetBreakpoint: FALSE for an empty list; otherwise SetThreadBreakpoint for
     * the thread id of every table in list order, ignoring each result, and TRUE.
     */
    method SetBreakpoint(register: int, size: int, address: nat, kind: nat, hitCount: nat, callback: Callback, os: Os)
      returns (ok: bool)
      requires Valid()
      modifies this`tables, this`live, this`enabled
      ensures Valid()
      ensures ok == (old(tables) != [])
      ensures |tables| == |old(tables)| && forall j :: 0 <= j < |tables| ==> tables[j].threadId == old(tables)[j].threadId
      ensures WellFormed(old(tables)) ==> (enabled == old(enabled) &&
        SetProgress(old(tables), old(live), tables, live, |old(tables)|, register, size, address, kind, hitCount, callback, lengthMask, os))
    {
      if tables == [] {
        return false;
      }
      SetEveryTable(tables, live, register, size, address, kind, hitCount, callback, os);
      return true;
    }

    /** SetBreakpoint's walk over the whole list, from the registry `ts0`, `live0`. */
    method SetEveryTable(ghost ts0: seq<Table>, ghost live0: map<ThreadId, DebugRegs>, register: int, size: int,
                         address: nat, kind: nat, hitCount: nat, callback: Callback, os: Os)
      requires Valid() && ValidTables(ts0) && LiveValid(live0) && tables == ts0 && live == live0
      modifies this`tables, this`live, this`enabled
      ensures Valid() && |tables| == |ts0|
      ensures forall j :: 0 <= j < |ts0| ==> tables[j].threadId == ts0[j].threadId
      ensures WellFormed(ts0) ==> (enabled == old(enabled) &&
        SetProgress(ts0, live0, tables, live, |ts0|, register, size, address, kind, hitCount, callback, lengthMask, os))
    {
      ghost var wf := WellFormed(ts0);
      ghost var enabled0 := enabled;
      var n := |tables|;
      var i := 0;
      while i < n
        invariant Valid()
        invariant i <= n == |tables| == |ts0|
        invariant forall j :: 0 <= j < |ts0| ==> tables[j].threadId == ts0[j].threadId
        invariant wf ==> enabled == enabled0
        invariant wf ==> SetProgress(ts0, live0, tables, live, i, register, size, address, kind, hitCount, callback, lengthMask, os)
      {
        SetBreakpointOnTable(ts0, live0, wf, i, register, size, address, kind, hitCount, callback, os);
        i := i + 1;
      }
      assert i == |ts0|;
    }

    /** One table of SetBreakpoint's walk: SetThreadBreakpoint on the table's thread. */
    method SetBreakpointOnTable(ghost ts0: seq<Table>, ghost live0: map<ThreadId, DebugRegs>, ghost wf: bool, i: nat,
                                register: int, size: int, address: nat, kind: nat, hitCount: nat, callback: Callback, os: Os)
      requires Valid() && ValidTables(ts0) && LiveValid(live0)
      requires i < |tables| == |ts0|
      requires forall j :: 0 <= j < |ts0| ==> tables[j].threadId == ts0[j].threadId
      requires wf ==> (WellFormed(ts0) &&
        SetProgress(ts0, live0, tables, live, i, register, size, address, kind, hitCount, callback, lengthMask, os))
      modifies this`tables, this`live, this`enabled
      ensures Valid() && |tables| == |ts0|
      ensures forall j :: 0 <= j < |ts0| ==> tables[j].threadId == ts0[j].threadId
      ensures wf ==> (enabled == old(enabled) &&
        SetProgress(ts0, live0, tables, live, i + 1, register, size, address, kind, hitCount, callback, lengthMask, os))
    {
      var tid := tables[i].threadId;
      AcquireKeepsIds(tables, tid, mainThreadId, os);
      if wf {
        SetProgressStep(ts0, live0, tables, live, i, register, size, address, kind, hitCount, callback, mainThreadId, lengthMask, os);
      }
      var _ := SetThreadBreakpoint(tid, register, size, address, kind, hitCount, callback, os);
    }

    /**
     * ClearBreakpoint: FALSE for an empty list; otherwise, for every table in
     * list order, refresh slot `register`'s handle from the table, zero its
     * size, address, type, count and callback, and call ClearThreadBreakpoint
     * (ignoring its result); TRUE. The source does not check the register:
     * one outside 0..3 would index past the four slots, so callers pass 0..3.
     */
    method ClearBreakpoint(register: int, os: Os) returns (ok: bool)
      requires Valid() && 0 <= register <= 3
      modifies this`tables, this`live, this`enabled
      ensures Valid()
      ensures ok == (old(tables) != [])
      ensures |tables| == |old(tables)| && forall j :: 0 <= j < |tables| ==> tables[j].threadId == old(tables)[j].threadId
      ensures WellFormed(old(tables)) ==>
        (enabled == old(enabled) && ClearProgress(old(tables), old(live), tables, live, |old(tables)|, register, os))
    {
      if tables == [] {
        return false;
      }
      ClearEveryTable(tables, live, register, os);
      return true;
    }

    /** ClearBreakpoint's walk over the whole list, from the registry `ts0`, `live0`. */
    method ClearEveryTable(ghost ts0: seq<Table>, ghost live0: map<ThreadId, DebugRegs>, register: nat, os: Os)
      requires Valid() && ValidTables(ts0) && LiveValid(live0) && register < 4 && tables == ts0 && live == live0
      modifies this`tables, this`live, this`enabled
      ensures Valid() && |tables| == |ts0|
      ensures forall j :: 0 <= j < |ts0| ==> tables[j].threadId == ts0[j].threadId
      ensures WellFormed(ts0) ==> (enabled == old(enabled) && ClearProgress(ts0, live0, tables, live, |ts0|, register, os))
    {
      ghost var wf := WellFormed(ts0);
      ghost var enabled0 := enabled;
      var n := |tables|;
      var i := 0;
      while i < n
        invariant Valid()
        invariant i <= n == |tables| == |ts0|
        invariant forall j :: 0 <= j < |ts0| ==> tables[j].threadId == ts0[j].threadId
        invariant wf ==> enabled == enabled0
        invariant wf ==> ClearProgress(ts0, live0, tables, live, i, register, os)
      {
        ClearBreakpointOnTable(ts0, live0, wf, i, register, os);
        i := i + 1;
      }
      assert i == |ts0|;
    }

    /** One table of ClearBreakpoint's walk: wipe slot `register`, then ClearThreadBreakpoint on the table's thread. */
    method ClearBreakpointOnTable(ghost ts0: seq<Table>, ghost live0: map<ThreadId, DebugRegs>, ghost wf: bool, i: nat, register: nat,
                                  os: Os)
      requires Valid() && ValidTables(ts0) && LiveValid(live0) && register < 4
      requires i < |tables| == |ts0|
      requires forall j :: 0 <= j < |ts0| ==> tables[j].threadId == ts0[j].threadId
      requires wf ==> WellFormed(ts0) && ClearProgress(ts0, live0, tables, live, i, register, os)
      modifies this`tables, this`live, this`enabled
      ensures Valid() && |tables| == |ts0|
      ensures forall j :: 0 <= j < |ts0| ==> tables[j].threadId == ts0[j].threadId
      ensures wf ==> enabled == old(enabled) && ClearProgress(ts0, live0, tables, live, i + 1, register, os)
    {
      var t := tables[i];
      var s := t.slots[register];
      if t.handle.Some? {
        s := s.(threadHandle := t.handle);
      }
      s := s.(size := 0, address := 0, kind := 0, hitCount := 0, callback := 0);
      ghost var before := tables;
      tables := SetSlot(tables, i, register, s);
      assert tables == WipeSlot(before, i, register);
      if wf {
        ClearProgressStep(ts0, live0, before, live, i, register, mainThreadId, os);
      }
      ClearThreadKeepsIds(tables, live, t.threadId, register, mainThreadId, os);
      var _ := ClearThreadBreakpoint(t.threadId, register, os);
    }

    /**
     * ClearBreakpointsInRange: FALSE for a NULL base or a zero size; otherwise
     * walk every table's four slots and call ClearBreakpoint on the register of
     * each slot whose address lies in [base, base + size); TRUE. So each such
     * register is wiped in every table and cleared on every table's thread.
     */
    method ClearBreakpointsInRange(base: nat, size: nat, os: Os) returns (ok: bool)
      requires Valid()
      modifies this`tables, this`live, this`enabled
      ensures Valid()
      ensures ok == (base != 0 && size != 0)
      ensures !ok ==> tables == old(tables) && live == old(live) && enabled == old(enabled)
      ensures |tables| == |old(tables)| && forall j :: 0 <= j < |tables| ==> tables[j].threadId == old(tables)[j].threadId
      ensures ok && WellFormed(old(tables)) ==>
        (forall j :: 0 <= j < |tables| ==> tables[j] == WipedRegisters(old(tables)[j], RangeHits(old(tables), base, size)))
        && enabled == old(enabled)
        && RangeCleared(old(tables), old(live), live, RangeHits(old(tables), base, size), os)
    {
      if base == 0 {
        return false;
      }
      if size == 0 {
        return false;
      }
      ghost var ts0, live0 := tables, live;
      RangeClearedStart(ts0, live0, os);
      assert HitSoFar(ts0, 0, 0, base, size) == {};
      var i := 0;
      while i < |tables|
        invariant Valid()
        invariant i <= |tables| == |ts0|
        invariant forall j :: 0 <= j < |ts0| ==> tables[j].threadId == ts0[j].threadId
        invariant WellFormed(ts0) ==> forall j :: 0 <= j < |ts0| ==> tables[j] == WipedRegisters(ts0[j], HitSoFar(ts0, i, 0, base, size))
        invariant WellFormed(ts0) ==> enabled == old(enabled) && RangeCleared(ts0, live0, live, HitSoFar(ts0, i, 0, base, size), os)
        decreases |tables| - i
      {
        ClearRangeInTable(ts0, live0, i, base, size, os);
        HitSoFarNext(ts0, i, base, size);
        i := i + 1;
      }
      assert i == |ts0|;
      HitSoFarEnd(ts0, base, size);
      return true;
    }

    /** ClearBreakpointsInRange's inner walk over the four slots of table `i`. */
    method ClearRangeInTable(ghost ts0: seq<Table>, ghost live0: map<ThreadId, DebugRegs>, i: nat, base: nat, size: nat, os: Os)
      requires Valid() && ValidTables(ts0) && LiveValid(live0) && base != 0
      requires i < |tables| == |ts0|
      requires forall j :: 0 <= j < |ts0| ==> tables[j].threadId == ts0[j].threadId
      requires WellFormed(ts0) ==> forall j :: 0 <= j < |ts0| ==> tables[j] == WipedRegisters(ts0[j], HitSoFar(ts0, i, 0, base, size))
      requires WellFormed(ts0) ==> RangeCleared(ts0, live0, live, HitSoFar(ts0, i, 0, base, size), os)
      modifies this`tables, this`live, this`enabled
      ensures Valid() && |tables| == |ts0|
      ensures forall j :: 0 <= j < |ts0| ==> tables[j].threadId == ts0[j].threadId
      ensures WellFormed(ts0) ==> forall j :: 0 <= j < |ts0| ==> tables[j] == WipedRegisters(ts0[j], HitSoFar(ts0, i, 4, base, size))
      ensures WellFormed(ts0) ==> enabled == old(enabled) && RangeCleared(ts0, live0, live, HitSoFar(ts0, i, 4, base, size), os)
    {
      var r := 0;
      while r < 4
        invariant Valid()
        invariant r <= 4 && i < |tables| == |ts0|
        invariant forall j :: 0 <= j < |ts0| ==> tables[j].threadId == ts0[j].threadId
        invariant WellFormed(ts0) ==> forall j :: 0 <= j < |ts0| ==> tables[j] == WipedRegisters(ts0[j], HitSoFar(ts0, i, r, base, size))
        invariant WellFormed(ts0) ==> enabled == old(enabled) && RangeCleared(ts0, live0, live, HitSoFar(ts0, i, r, base, size), os)
      {
        ClearRegisterInRange(ts0, live0, i, r, base, size, os);
        r := r + 1;
      }
      assert r == 4;
    }

    /** One slot of ClearBreakpointsInRange's inner walk: ClearBreakpoint on register `r` when table `i`'s slot lies in range. */
    method ClearRegisterInRange(ghost ts0: seq<Table>, ghost live0: map<ThreadId, DebugRegs>, i: nat, r: nat, base: nat, size: nat, os: Os)
      requires Valid() && ValidTables(ts0) && LiveValid(live0) && base != 0 && r < 4
      requires i < |tables| == |ts0|
      requires forall j :: 0 <= j < |ts0| ==> tables[j].threadId == ts0[j].threadId
      requires WellFormed(ts0) ==> forall j :: 0 <= j < |ts0| ==> tables[j] == WipedRegisters(ts0[j], HitSoFar(ts0, i, r, base, size))
      requires WellFormed(ts0) ==> RangeCleared(ts0, live0, live, HitSoFar(ts0, i, r, base, size), os)
      modifies this`tables, this`live, this`enabled
      ensures Valid() && |tables| == |ts0|
      ensures forall j :: 0 <= j < |ts0| ==> tables[j].threadId == ts0[j].threadId
      ensures WellFormed(ts0) ==> forall j :: 0 <= j < |ts0| ==> tables[j] == WipedRegisters(ts0[j], HitSoFar(ts0, i, r + 1, base, size))
      ensures WellFormed(ts0) ==> enabled == old(enabled) && RangeCleared(ts0, live0, live, HitSoFar(ts0, i, r + 1, base, size), os)
    {
      HitSoFarStep(ts0, i, r, base, size);
      if InRange(tables[i].slots[r].address, base, size) {
        ghost var before, liveBefore := tables, live;
        if WellFormed(ts0) {
          assert WellFormed(tables) by {
            assert forall j :: 0 <= j < |tables| ==> tables[j].handle == ts0[j].handle && tables[j].threadId == ts0[j].threadId;
          }
        }
        var _ := ClearBreakpoint(r, os);
        if WellFormed(ts0) {
          ClearProgressDone(before, liveBefore, tables, live, r, os);
          RangeWipeStep(ts0, before, tables, i, r, base, size);
          assert forall j :: 0 <= j < |ts0| ==> before[j].slots[r].register == ts0[j].slots[r].register;
          RangeClearedStep(ts0, live0, before, liveBefore, tables, live, HitSoFar(ts0, i, r, base, size), r, os);
        }
      } else if WellFormed(ts0) {
        assert HitSoFar(ts0, i, r + 1, base, size) == HitSoFar(ts0, i, r, base, size);
      }
    }

    /**
     * ContextClearBreakpointsInRange: FALSE for a NULL base or a zero size;
     * otherwise, for every slot of every table whose address lies in
     * [base, base + size), clear that register in the CONTEXT and empty the
     * slot; TRUE. The CONTEXT is not written back to any thread.
     */
    method ContextClearBreakpointsInRange(ctx: Context, base: nat, size: nat) returns (ok: bool)
      requires Valid() && ctx.Valid()
      modifies ctx`regs, this`tables
      ensures Valid() && ctx.Valid()
      ensures ok == (base != 0 && size != 0)
      ensures !ok ==> tables == old(tables) && ctx.regs == old(ctx.regs)
      ensures ok ==> (
        |tables| == |old(tables)| &&
        (forall j :: 0 <= j < |tables| ==> tables[j] == EmptiedInRange(old(tables)[j], base, size, 4)) &&
        DisarmedExactly(ctx.regs, old(ctx.regs), RangeHits(old(tables), base, size)))
    {
      if base == 0 {
        return false;
      }
      if size == 0 {
        return false;
      }
      ghost var ts0 := tables;
      ghost var regs0 := ctx.regs;
      var i := 0;
      while i < |tables|
        invariant Valid() && ctx.Valid()
        invariant i <= |tables| == |ts0|
        invariant EmptiedUpTo(ts0, tables, i, 0, base, size)
        invariant DisarmedExactly(ctx.regs, regs0, HitSoFar(ts0, i, 0, base, size))
      {
        var r := 0;
        while r < 4
          invariant Valid() && ctx.Valid()
          invariant r <= 4 && i < |tables| == |ts0|
          invariant EmptiedUpTo(ts0, tables, i, r, base, size)
          invariant DisarmedExactly(ctx.regs, regs0, HitSoFar(ts0, i, r, base, size))
        {
          HitSoFarStep(ts0, i, r, base, size);
          EmptiedUpToStep(ts0, tables, i, r, base, size);
          if base <= tables[i].slots[r].address < (base + size) % Word64 {
            DisarmOneMore(ctx.regs, regs0, HitSoFar(ts0, i, r, base, size), r);
            ctx.regs := Disarm(ctx.regs, r);
            tables := SetSlot(tables, i, r, Emptied(tables[i].slots[r]));
          }
          r := r + 1;
        }
        EmptiedUpToNext(ts0, tables, i, base, size);
        HitSoFarNext(ts0, i, base, size);
        i := i + 1;
      }
      HitSoFarEnd(ts0, base, size);
      return true;
    }

    /**
     * ClearAllBreakpoints: walk the registry; at the first table with no
     * thread id or no handle, or whose thread context cannot be read or
     * written, stop with FALSE. Every table reached has its four slots zeroed
     * (before the context calls, so a table whose context calls fail is zeroed
     * too), and every thread passed has Dr0-Dr3, Dr6 and Dr7 set to zero.
     */
    method ClearAllBreakpoints(os: Os) returns (ok: bool)
      requires Valid()
      modifies this`tables, this`live
      ensures Valid()
      ensures var n := FirstStuck(old(tables), old(live), os);
        ok == (n == |old(tables)|) &&
        ZeroedUpTo(old(tables), tables,
          if n < |old(tables)| && old(tables)[n].threadId != 0 && old(tables)[n].handle.Some? then n + 1 else n) &&
        ClearedUpTo(old(tables), old(live), live, n)
    {
      ghost var ts0 := tables;
      ghost var live0 := live;
      var i := 0;
      while i < |tables|
        invariant Valid()
        invariant i <= FirstStuck(ts0, live0, os) && |tables| == |ts0|
        invariant ZeroedUpTo(ts0, tables, i)
        invariant ClearedUpTo(ts0, live0, live, i)
      {
        assert tables[i] == ts0[i];
        StuckAt(ts0, live, live0, os, i);
        ZeroedUpToStep(ts0, tables, i);
        if ts0[i].handle.Some? && ts0[i].handle.value in live {
          ClearedUpToStep(ts0, live0, live, i, ts0[i].handle.value);
        }
        var more := ClearTable(i, os);
        if !more {
          return false;
        }
        i := i + 1;
      }
      assert i == |ts0|;
      return true;
    }

    /**
     * One iteration of ClearAllBreakpoints: FALSE for a table with no thread
     * id or no handle; otherwise zero its slots, then FALSE when its thread
     * context cannot be read or written, and TRUE with the thread's debug
     * registers zeroed.
     */
    method ClearTable(i: nat, os: Os) returns (more: bool)
      requires Valid() && i < |tables|
      modifies this`tables, this`live
      ensures Valid()
      ensures more == !Stuck(old(tables)[i], old(live), os)
      ensures tables == if old(tables)[i].threadId != 0 && old(tables)[i].handle.Some?
                        then old(tables)[i := ZeroSlots(old(tables)[i])] else old(tables)
      ensures live == if more then old(live)[old(tables)[i].handle.value := ClearedRegs] else old(live)
    {
      var t := tables[i];
      if t.threadId == 0 {
        return false;
      }
      if t.handle.None? {
        return false;
      }
      tables := tables[i := ZeroSlots(t)];
      if !(t.handle.value in live && t.handle.value in os.readable) {
        return false;
      }
      if !(t.handle.value in live && t.handle.value in os.writable) {
        return false;
      }
      live := live[t.handle.value := ClearedRegs];
      return true;
    }

    /**
     * ContextClearAllBreakpoints: FALSE when the current thread has no table;
     * otherwise zero its four slots and the CONTEXT's debug registers, then
     * write the CONTEXT to the table's thread handle: FALSE when there is no
     * handle or the write fails, TRUE otherwise.
     */
    method ContextClearAllBreakpoints(ctx: Context, current: ThreadId, os: Os) returns (ok: bool)
      requires Valid() && ctx.Valid()
      modifies ctx`regs, this`tables, this`live
      ensures Valid() && ctx.Valid()
      ensures var k := FindTable(old(tables), current);
        if k.None? then !ok && tables == old(tables) && ctx.regs == old(ctx.regs) && live == old(live)
        else
          tables == old(tables)[k.value := ZeroSlots(old(tables)[k.value])] &&
          ctx.regs == ClearedRegs &&
          ok == CanSet(old(tables)[k.value].handle, old(live), os) &&
          live == (if ok then old(live)[old(tables)[k.value].handle.value := ClearedRegs] else old(live))
    {
      var k := GetThreadBreakpoints(current);
      if k.None? {
        return false;
      }
      var t := tables[k.value];
      tables := tables[k.value := ZeroSlots(t)];
      ctx.regs := ClearedRegs;
      if t.handle.None? {
        return false;
      }
      if !(t.handle.value in live && t.handle.value in os.writable) {
        return false;
      }
      live := live[t.handle.value := ctx.regs];
      return true;
    }

    /**
     * ContextSetDebugRegisterEx: validate the request, arm the register in
     * the CONTEXT, and unless `noSet` write the CONTEXT to the current
     * thread's handle.
     */
    method ContextSetDebugRegisterEx(ctx: Context, register: int, size: int, address: nat, kind: nat, noSet: bool,
                                     current: ThreadId, os: Os) returns (ok: bool)
      requires Valid() && ctx.Valid()
      modifies ctx`regs, this`live
      ensures Valid() && ctx.Valid()
      ensures var o := ContextSetRegister(tables, old(live), old(ctx.regs), current, register, size, address, kind, noSet, lengthMask, os);
        ok == o.ok && live == o.live && ctx.regs == o.regs
    {
      if kind > 3 || kind == 2 || register < 0 || register > 3 || size < 0 || size > MaxDataSize {
        return false;
      }
      var length := LengthBits(lengthMask, size, kind);
      ctx.regs := Arm(ctx.regs, register, address, length, kind);
      if noSet {
        return true;
      }
      var k := GetThreadBreakpoints(current);
      if k.None? {
        return false;
      }
      var h := tables[k.value].handle;
      if h.None? {
        return false;
      }
      if !(h.value in live && h.value in os.writable) {
        return false;
      }
      live := live[h.value := ctx.regs];
      return true;
    }

    /**
     * ContextSetThreadBreakpointEx: refuse an out-of-range register; arm the
     * CONTEXT; if that fails report TRUE anyway; otherwise record the request
     * in the current thread's slot.
     */
    method ContextSetThreadBreakpointEx(ctx: Context, register: int, size: int, address: nat, kind: nat, hitCount: nat,
                                        callback: Callback, noSet: bool, current: ThreadId, os: Os) returns (ok: bool)
      requires Valid() && ctx.Valid()
      modifies ctx`regs, this`live, this`tables
      ensures Valid() && ctx.Valid()
      ensures var o := ContextSetThread(old(tables), old(live), old(ctx.regs), current, register, size, address, kind,
                                        hitCount, callback, noSet, lengthMask, os);
        ok == o.ok && tables == o.tables && live == o.live && ctx.regs == o.regs
    {
      if register > 3 || register < 0 {
        return false;
      }
      var written := ContextSetDebugRegisterEx(ctx, register, size, address, kind, noSet, current, os);
      if !written {
        return true;
      }
      var k := GetThreadBreakpoints(current);
      if k.None? {
        return false;
      }
      var t := tables[k.value];
      tables := SetSlot(tables, k.value, register, Slot(register, size, address, kind, hitCount, callback, t.handle));
      return true;
    }

    /**
     * ContextClearBreakpoint on slot `r` of table `k`: FALSE for a NULL
     * CONTEXT; otherwise clear the register the slot names, write the CONTEXT
     * to the slot's thread handle, and only then empty the slot (keeping its
     * callback).
     */
    method ContextClearBreakpoint(ctx: Context?, k: nat, r: nat, os: Os) returns (ok: bool)
      requires Valid() && (ctx != null ==> ctx.Valid()) && k < |tables| && r < 4
      modifies ctx, this`live, this`tables
      ensures Valid() && (ctx != null ==> ctx.Valid())
      ensures ctx == null ==> !ok && tables == old(tables) && live == old(live)
      ensures ctx != null ==>
        var o := ContextClearSlot(old(tables), old(live), old(ctx.regs), k, r, os);
        ok == o.ok && tables == o.tables && live == o.live && ctx.regs == o.regs &&
        ctx.eflags == old(ctx.eflags) && ctx.ip == old(ctx.ip) && ctx.ax == old(ctx.ax) && ctx.dx == old(ctx.dx)
    {
      if ctx == null {
        return false;
      }
      var s := tables[k].slots[r];
      ctx.regs := DisarmIfValid(ctx.regs, s.register);
      if s.threadHandle.None? {
        return false;
      }
      if !(s.threadHandle.value in live && s.threadHandle.value in os.writable) {
        return false;
      }
      live := live[s.threadHandle.value := ctx.regs];
      tables := SetSlot(tables, k, r, Unarmed(s));
      return true;
    }

    /**
     * ContextGetNextAvailableBreakpoint: look the current thread's table up
     * or create it, then take its lowest slot with a NULL address.
     */
    method ContextGetNextAvailableBreakpoint(current: ThreadId, os: Os) returns (reg: Option<nat>)
      requires Valid()
      modifies this`tables, this`enabled
      ensures Valid()
      ensures var a := AcquireOutcome(old(tables), current, mainThreadId, os);
        tables == a.tables && enabled == (old(enabled) || a.created) &&
        reg == (if a.index.Some? then NextFree(a.tables[a.index.value].slots) else None)
    {
      var k := AcquireTable(current, os);
      AcquireShape(old(tables), current, mainThreadId, os);
      if k.None? {
        return None;
      }
      var slots := tables[k.value].slots;
      var i := 0;
      while i < 4
        invariant i <= 4
        invariant forall j :: 0 <= j < i ==> slots[j].address != 0
      {
        if slots[i].address == 0 {
          return Some(i);
        }
        i := i + 1;
      }
      return None;
    }

    /**
     * ContextSetNextAvailableBreakpoint: FALSE for a NULL address or a thread
     * with no table; TRUE without change when an identical breakpoint is
     * already set; FALSE when all four slots are taken; otherwise
     * ContextSetThreadBreakpoint on the lowest free register.
     */
    method ContextSetNextAvailableBreakpoint(ctx: Context, size: int, address: nat, kind: nat, hitCount: nat,
                                             callback: Callback, current: ThreadId, os: Os) returns (ok: bool, reg: Option<nat>)
      requires Valid() && ctx.Valid()
      modifies ctx`regs, this`live, this`tables, this`enabled
      ensures Valid() && ctx.Valid()
      ensures enabled == old(enabled)
      ensures var k := FindTable(old(tables), current);
        if address == 0 || k.None? || HasIdentical(old(tables)[k.value].slots, size, address, kind, hitCount)
           || NextFree(old(tables)[k.value].slots).None? then
          ok == (address != 0 && k.Some? && HasIdentical(old(tables)[k.value].slots, size, address, kind, hitCount)) &&
          reg.None? && tables == old(tables) && live == old(live) && ctx.regs == old(ctx.regs)
        else
          var o := ContextSetThread(old(tables), old(live), old(ctx.regs), current, NextFree(old(tables)[k.value].slots).value,
                                    size, address, kind, hitCount, callback, false, lengthMask, os);
          reg == NextFree(old(tables)[k.value].slots) &&
          ok == o.ok && tables == o.tables && live == o.live && ctx.regs == o.regs
    {
      reg := None;
      if address == 0 {
        return false, reg;
      }
      var k := GetThreadBreakpoints(current);
      if k.None? {
        return false, reg;
      }
      var slots := tables[k.value].slots;
      var i := 0;
      while i < 4
        invariant i <= 4
        invariant forall j :: 0 <= j < i ==>
          !(slots[j].size == size && slots[j].address == address && slots[j].kind == kind && slots[j].hitCount == hitCount)
      {
        if slots[i].size == size && slots[i].address == address && slots[i].kind == kind && slots[i].hitCount == hitCount {
          return true, reg;
        }
        i := i + 1;
      }
      reg := ContextGetNextAvailableBreakpoint(current, os);
      if reg.None? {
        return false, reg;
      }
      ok := ContextSetThreadBreakpointEx(ctx, reg.value, size, address, kind, hitCount, callback, false, current, os);
    }

    /**
     * ContextUpdateCurrentBreakpoint: FALSE when the current thread has no
     * table; otherwise re-set, with the new values, the lowest register whose
     * slot is numbered after it and holds the address and type the CONTEXT
     * has there; FALSE when no slot does.
     */
    method ContextUpdateCurrentBreakpoint(ctx: Context, size: int, address: nat, kind: nat, hitCount: nat,
                                          callback: Callback, current: ThreadId, os: Os) returns (ok: bool)
      requires Valid() && ctx.Valid()
      modifies ctx`regs, this`live, this`tables
      ensures Valid() && ctx.Valid()
      ensures var k := FindTable(old(tables), current);
        if k.None? || CurrentMatch(old(tables)[k.value].slots, old(ctx.regs)) == 4 then
          !ok && tables == old(tables) && live == old(live) && ctx.regs == old(ctx.regs)
        else
          var o := ContextSetThread(old(tables), old(live), old(ctx.regs), current,
                                    CurrentMatch(old(tables)[k.value].slots, old(ctx.regs)),
                                    size, address, kind, hitCount, callback, false, lengthMask, os);
          ok == o.ok && tables == o.tables && live == o.live && ctx.regs == o.regs
    {
      var k := GetThreadBreakpoints(current);
      if k.None? {
        return false;
      }
      var slots := tables[k.value].slots;
      var bp := 0;
      while bp < 4 && !(slots[bp].register == bp && slots[bp].address == ctx.regs.dr[bp] && slots[bp].kind == ctx.regs.dr7.rwe[bp])
        invariant bp <= 4
        invariant forall q :: 0 <= q < bp ==> !MatchesContext(slots, ctx.regs, q)
      {
        bp := bp + 1;
      }
      assert bp == CurrentMatch(slots, ctx.regs);
      if bp == 4 {
        return false;
      }
      ok := ContextSetThreadBreakpointEx(ctx, bp, size, address, kind, hitCount, callback, false, current, os);
    }

    /**
     * ContextClearCurrentBreakpoint: FALSE when the current thread has no
     * table; otherwise ContextClearBreakpoint on the lowest register whose
     * Dr6 status bit is set and whose slot is numbered after it; FALSE when
     * there is none.
     */
    method ContextClearCurrentBreakpoint(ctx: Context, current: ThreadId, os: Os) returns (ok: bool)
      requires Valid() && ctx.Valid()
      modifies ctx, this`live, this`tables
      ensures Valid() && ctx.Valid()
      ensures var k := FindTable(old(tables), current);
        if k.None? || ClearableHit(old(tables)[k.value].slots, old(ctx.regs).dr6) == 4 then
          !ok && tables == old(tables) && live == old(live) && ctx.regs == old(ctx.regs)
        else
          var o := ContextClearSlot(old(tables), old(live), old(ctx.regs), k.value,
                                    ClearableHit(old(tables)[k.value].slots, old(ctx.regs).dr6), os);
          ok == o.ok && tables == o.tables && live == o.live && ctx.regs == o.regs
    {
      var k := GetThreadBreakpoints(current);
      if k.None? {
        return false;
      }
      var bp := 0;
      while bp < 4 && !(bp in ctx.regs.dr6 && tables[k.value].slots[bp].register == bp)
        invariant bp <= 4
        invariant forall q :: 0 <= q < bp ==> !(Hit(ctx.regs.dr6, q) && tables[k.value].slots[q].register == q)
      {
        bp := bp + 1;
      }
      assert bp == ClearableHit(tables[k.value].slots, ctx.regs.dr6);
      if bp == 4 {
        return false;
      }
      ok := ContextClearBreakpoint(ctx, k.value, bp, os);
    }

    /**
     * GetNextAvailableBreakpoint: FALSE on an empty list; otherwise walk every
     * table whose handle opens `tid` and answer with the first slot that has
     * a NULL address.
     */
    method GetNextAvailableBreakpoint(tid: ThreadId) returns (reg: Option<nat>)
      requires Valid()
      ensures reg == FirstFreeForThread(tables, tid)
    {
      if tables == [] {
        return None;
      }
      var i := 0;
      while i < |tables|
        invariant i <= |tables|
        invariant FirstFreeForThread(tables, tid) == FirstFreeForThread(tables[i..], tid)
      {
        assert tables[i..][1..] == tables[i + 1..];
        if HandleThreadId(tables[i].handle) == tid {
          var slots := tables[i].slots;
          var j := 0;
          while j < 4
            invariant j <= 4
            invariant forall q :: 0 <= q < j ==> slots[q].address != 0
          {
            if slots[j].address == 0 {
              return Some(j);
            }
            j := j + 1;
          }
        }
        i := i + 1;
      }
      return None;
    }

    /**
     * SetNextAvailableBreakpoint: look the thread's table up or create it,
     * find the thread's next free register, and SetThreadBreakpoint there.
     */
    method SetNextAvailableBreakpoint(tid: ThreadId, size: int, address: nat, kind: nat, hitCount: nat, callback: Callback,
                                      os: Os) returns (ok: bool, reg: Option<nat>)
      requires Valid()
      modifies this`tables, this`live, this`enabled
      ensures Valid()
      ensures var a := AcquireOutcome(old(tables), tid, mainThreadId, os);
        if a.index.None? || FirstFreeForThread(a.tables, tid).None? then
          !ok && reg.None? && tables == a.tables && live == old(live) && enabled == (old(enabled) || a.created)
        else
          var r := SetThread(a.tables, old(live), tid, FirstFreeForThread(a.tables, tid).value, size, address, kind,
                             hitCount, callback, mainThreadId, lengthMask, os);
          reg == FirstFreeForThread(a.tables, tid) &&
          ok == r.ok && tables == r.tables && live == r.live && enabled == (old(enabled) || a.created || r.created)
    {
      reg := None;
      var k := AcquireTable(tid, os);
      if k.None? {
        return false, reg;
      }
      reg := GetNextAvailableBreakpoint(tid);
      if reg.None? {
        return false, reg;
      }
      ok := SetThreadBreakpoint(tid, reg.value, size, address, kind, hitCount, callback, os);
    }

    /**
     * InitNewThreadBreakpoints: FALSE on an empty list or when a table cannot
     * be created for the thread; otherwise copy each armed slot of the head
     * table onto the new thread, stopping with FALSE at the first copy that
     * fails.
     */
    method InitNewThreadBreakpoints(tid: ThreadId, os: Os) returns (ok: bool)
      requires Valid()
      modifies this`tables, this`live, this`enabled
      ensures Valid()
      ensures old(tables) == [] ==> !ok && tables == old(tables) && live == old(live)
      ensures old(tables) != [] && WellFormed(old(tables)) ==>
        ok == (tid in os.openable && os.allocates && forall j :: 0 <= j < |old(tables)| ==> old(tables)[j].threadId != tid) &&
        (ok ==> tables == old(tables) + [InheritedUpTo(old(tables)[0], tid, 4)] &&
                live == InheritLive(old(live), old(tables)[0], tid, 4, lengthMask, os)) &&
        (!ok ==> tables == old(tables) && live == old(live))
    {
      if tables == [] {
        return false;
      }
      ghost var ts0 := tables;
      ghost var live0 := live;
      ghost var wf := WellFormed(ts0);
      if wf {
        CreateInWellFormed(ts0, tid, mainThreadId, os);
        InheritedStart(ts0[0], tid);
      }
      var k := CreateThreadBreakpoints(tid, os);
      if k.None? {
        return false;
      }
      // A created table always holds the thread's handle, so the source's NULL-handle test cannot fail here.
      var r := 0;
      while r < 4
        invariant Valid()
        invariant r <= 4 && tables != []
        invariant wf ==> tables == ts0 + [InheritedUpTo(ts0[0], tid, r)] && live == InheritLive(live0, ts0[0], tid, r, lengthMask, os)
        invariant wf ==> WellFormed(tables)
      {
        var copied := InheritRegister(ts0, live0, wf, tid, r, os);
        if !copied {
          return false;
        }
        r := r + 1;
      }
      assert r == 4;
      return true;
    }

    /** One register of InitNewThreadBreakpoints: copy the main table's slot `r`, when it is set, to thread `tid`. */
    method InheritRegister(ghost ts0: seq<Table>, ghost live0: map<ThreadId, DebugRegs>, ghost wf: bool, tid: ThreadId, r: nat,
                           os: Os) returns (copied: bool)
      requires Valid() && ValidTables(ts0) && LiveValid(live0) && ts0 != [] && tables != [] && r < 4
      requires wf ==> WellFormed(ts0) && WellFormed(tables) && tables == ts0 + [InheritedUpTo(ts0[0], tid, r)] &&
                      live == InheritLive(live0, ts0[0], tid, r, lengthMask, os)
      modifies this`tables, this`live, this`enabled
      ensures Valid() && tables != []
      ensures wf ==> copied && WellFormed(tables) && tables == ts0 + [InheritedUpTo(ts0[0], tid, r + 1)] &&
                     live == InheritLive(live0, ts0[0], tid, r + 1, lengthMask, os)
    {
      var s := tables[0].slots[r];
      if wf {
        InheritedStep(ts0, ts0[0], tid, r);
        assert s == ts0[0].slots[r];
      }
      if s.address == 0 {
        return true;
      }
      if wf {
        SetThreadInWellFormed(tables, live, |ts0|, r, s.size, s.address, s.kind, s.hitCount, s.callback, mainThreadId, lengthMask, os);
      }
      copied := SetThreadBreakpoint(tid, r, s.size, s.address, s.kind, s.hitCount, s.callback, os);
      if copied && wf {
        WellFormedByIds(ts0 + [InheritedUpTo(ts0[0], tid, r)], tables);
      }
    }

    /**
     * InitialiseDebugger: record the current thread as the main thread,
     * duplicate its handle, make its table the head of the list, resolve the
     * exception dispatcher, then reset the single-step handler and mark the
     * debugger enabled and initialised.
     */
    method InitialiseDebugger(current: ThreadId, dispatcherFound: bool, os: Os) returns (ok: bool)
      requires Valid()
      modifies this`tables, this`enabled, this`initialised, this`mainThreadId, this`singleStepHandler
      ensures Valid()
      ensures mainThreadId == current
      ensures current !in os.openable ==> !ok && tables == old(tables) && initialised == old(initialised)
      ensures current in os.openable ==>
        var a := CreateOutcome(old(tables), current, current, os);
        tables == (if a.index.Some? then a.tables[a.index.value..] else []) &&
        ok == (a.index.Some? && dispatcherFound)
      ensures ok ==> initialised && enabled && singleStepHandler == 0
      ensures !ok ==> initialised == old(initialised) && singleStepHandler == old(singleStepHandler)
      ensures enabled == (old(enabled) || (current in os.openable && CreateOutcome(old(tables), current, current, os).index.Some?))
    {
      mainThreadId := current;
      if current !in os.openable {
        return false;
      }
      var k := CreateThreadBreakpoints(current, os);
      if k.None? {
        tables := [];
        return false;
      }
      tables := tables[k.value..];
      if !dispatcherFound {
        return false;
      }
      singleStepHandler := 0;
      enabled := true;
      initialised := true;
      return true;
    }

    /**
     * SetSingleStepMode: FALSE for a NULL CONTEXT; otherwise set the trap
     * flag, with branch tracing also set Dr7 LE and GE, and install the
     * single-step handler.
     */
    method SetSingleStepMode(ctx: Context?, handler: Callback, branchTrace: bool) returns (ok: bool)
      requires ctx != null ==> ctx.Valid()
      modifies ctx, this`singleStepHandler
      ensures ctx != null ==> ctx.Valid()
      ensures ok == (ctx != null)
      ensures !ok ==> singleStepHandler == old(singleStepHandler)
      ensures ok ==>
        singleStepHandler == handler &&
        ctx.eflags == ApplyFlag(old(ctx.eflags), Trap, SetFlag) &&
        ctx.regs.dr == old(ctx.regs.dr) && ctx.regs.dr6 == old(ctx.regs.dr6) &&
        ctx.regs.dr7 == (if branchTrace then old(ctx.regs.dr7).(le := true, ge := true) else old(ctx.regs.dr7)) &&
        ctx.ip == old(ctx.ip) && ctx.ax == old(ctx.ax) && ctx.dx == old(ctx.dx)
    {
      if ctx == null {
        return false;
      }
      ctx.eflags := ApplyFlag(ctx.eflags, Trap, SetFlag);
      if branchTrace {
        ctx.regs := ctx.regs.(dr7 := ctx.regs.dr7.(le := true, ge := true));
      }
      singleStepHandler := handler;
      return true;
    }
  }
}
