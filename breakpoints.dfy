/**
 * The per-thread hardware-breakpoint registry of CAPE/Debugger.c as values:
 * a slot per debug register, a table of four slots per thread, the list of
 * tables in list order, and the outcome of the registry operations as
 * functions of the list before the call. The `Debugger` class in
 * breakpoint_manager.dfy holds the list and proves its methods against these.
 */
module Breakpoints {
  import opened Basics
  import opened DebugRegisters

  type ThreadId = nat

  /** A callback function pointer; 0 is NULL. */
  type Callback = nat

  /**
   * One BREAKPOINTINFO. `threadHandle` and a table's `handle` are thread
   * handles, represented by the id of the thread they open (None is NULL).
   */
  datatype Slot = Slot(
    register: int,
    size: int,
    address: nat,
    kind: nat,
    hitCount: nat,
    callback: Callback,
    threadHandle: Option<ThreadId>)

  const ZeroSlot: Slot := Slot(0, 0, 0, 0, 0, 0, None)

  /** One THREADBREAKPOINTS list node: the thread id, its handle, the four slots. */
  datatype Table = Table(threadId: ThreadId, handle: Option<ThreadId>, slots: seq<Slot>)

  /** A freshly allocated, memset-zero list node. */
  const ZeroTable: Table := Table(0, None, [ZeroSlot, ZeroSlot, ZeroSlot, ZeroSlot])

  predicate ValidTables(ts: seq<Table>)
  {
    forall i :: 0 <= i < |ts| ==> |ts[i].slots| == 4
  }

  /**
   * The answers the operating system gives: which threads can be opened
   * (OpenThread or DuplicateHandle), and whose context can be read
   * (GetThreadContext) or written (SetThreadContext), and whether malloc
   * of a list node succeeds. Thread id 0 names no thread, so it can never
   * be opened.
   */
  datatype OsAnswers = OsAnswers(openable: set<ThreadId>, readable: set<ThreadId>, writable: set<ThreadId>, allocates: bool)
  type Os = o: OsAnswers | 0 !in o.openable witness OsAnswers({}, {}, {}, false)

  /** GetThreadId: the thread a handle opens, 0 for NULL. */
  function HandleThreadId(h: Option<ThreadId>): ThreadId
  {
    if h.Some? then h.value else 0
  }

  /** GetThreadContext on handle `h` succeeds. */
  predicate CanGet(h: Option<ThreadId>, live: map<ThreadId, DebugRegs>, os: Os)
  {
    h.Some? && h.value in live && h.value in os.readable
  }

  /** SetThreadContext on handle `h` succeeds. */
  predicate CanSet(h: Option<ThreadId>, live: map<ThreadId, DebugRegs>, os: Os)
  {
    h.Some? && h.value in live && h.value in os.writable
  }

  /** Replace slot `r` of table `k`. */
  function SetSlot(ts: seq<Table>, k: nat, r: nat, s: Slot): (res: seq<Table>)
    requires k < |ts| && r < |ts[k].slots|
    ensures |res| == |ts|
    ensures forall j :: 0 <= j < |ts| ==> res[j].threadId == ts[j].threadId && res[j].handle == ts[j].handle
    ensures forall j :: 0 <= j < |ts| ==> |res[j].slots| == |ts[j].slots|
  {
    ts[k := ts[k].(slots := ts[k].slots[r := s])]
  }

  // ---- lookup (GetThreadBreakpoints) ----

  /** The first table whose handle opens thread `tid`. */
  function FindTable(ts: seq<Table>, tid: ThreadId): (r: Option<nat>)
    ensures r.Some? ==> r.value < |ts| && HandleThreadId(ts[r.value].handle) == tid
    ensures r.Some? ==> forall j :: 0 <= j < r.value ==> HandleThreadId(ts[j].handle) != tid
    ensures r.None? ==> forall j :: 0 <= j < |ts| ==> HandleThreadId(ts[j].handle) != tid
  {
    if ts == [] then None
    else if HandleThreadId(ts[0].handle) == tid then Some(0)
    else match FindTable(ts[1..], tid)
      case None => None
      case Some(k) => Some(k + 1)
  }

  /** The registry the running debugger keeps: every table holds an open handle to its own thread, one table per thread. */
  predicate WellFormed(ts: seq<Table>)
  {
    (forall i :: 0 <= i < |ts| ==> ts[i].handle == Some(ts[i].threadId)) &&
    (forall i, j :: 0 <= i < j < |ts| ==> ts[i].threadId != ts[j].threadId)
  }

  /** Only the handles decide a lookup. */
  lemma {:induction false} FindTableByHandles(a: seq<Table>, b: seq<Table>, tid: ThreadId)
    requires |a| == |b|
    requires forall j :: 0 <= j < |a| ==> a[j].handle == b[j].handle
    ensures FindTable(a, tid) == FindTable(b, tid)
  {
    if a != [] {
      FindTableByHandles(a[1..], b[1..], tid);
    }
  }

  // ---- creation (CreateThreadBreakpoints) ----

  /** An empty list first gets a zeroed head carrying the main thread's id. */
  function Seeded(ts: seq<Table>, mainThreadId: ThreadId): (r: seq<Table>)
    ensures r != []
    ensures ts != [] ==> r == ts
  {
    if ts == [] then [ZeroTable.(threadId := mainThreadId)] else ts
  }

  /** The first table carrying thread id `tid`, or |ts| when there is none. */
  function ReuseIndex(ts: seq<Table>, tid: ThreadId): (k: nat)
    ensures k <= |ts|
    ensures k < |ts| ==> ts[k].threadId == tid
    ensures forall j :: 0 <= j < k ==> ts[j].threadId != tid
  {
    if ts == [] then 0 else if ts[0].threadId == tid then 0 else 1 + ReuseIndex(ts[1..], tid)
  }

  /** The creation walk meets a table holding a handle to `tid` at or before the reusable one. */
  predicate HandleClash(ts: seq<Table>, tid: ThreadId)
  {
    exists j :: 0 <= j < |ts| && j <= ReuseIndex(ts, tid) && ts[j].handle == Some(tid)
  }

  /** A table taken over for thread `tid`: id and handle set, slot i numbered i and given the handle. */
  function Adopt(t: Table, tid: ThreadId): (r: Table)
    ensures r.threadId == tid && r.handle == Some(tid) && |r.slots| == |t.slots|
  {
    Table(tid, Some(tid),
      seq(|t.slots|, i requires 0 <= i < |t.slots| => t.slots[i].(register := i, threadHandle := Some(tid))))
  }

  datatype Acquired = Acquired(index: Option<nat>, tables: seq<Table>, created: bool)

  /**
   * CreateThreadBreakpoints: an empty list stays empty when the head cannot
   * be allocated; otherwise refuse when a handle to the thread is met first,
   * reuse the table carrying the id or append a zeroed one (refused when that
   * node cannot be allocated), and take it over once a handle to the thread
   * is obtained. A later failure leaves the (seeded) list as it was.
   */
  function CreateOutcome(ts: seq<Table>, tid: ThreadId, mainThreadId: ThreadId, os: Os): Acquired
  {
    if ts == [] && !os.allocates then Acquired(None, [], false)
    else
      var t0 := Seeded(ts, mainThreadId);
      var k := ReuseIndex(t0, tid);
      if HandleClash(t0, tid) || (k == |t0| && !os.allocates) || tid !in os.openable then Acquired(None, t0, false)
      else if k < |t0| then Acquired(Some(k), t0[k := Adopt(t0[k], tid)], true)
      else Acquired(Some(k), t0 + [Adopt(ZeroTable, tid)], true)
  }

  /** Without memory, CreateThreadBreakpoints adds no node: an empty list stays empty, and only a table already carrying the id can be taken over. */
  lemma CreateWithoutMemory(ts: seq<Table>, tid: ThreadId, mainThreadId: ThreadId, os: Os)
    requires !os.allocates
    ensures var a := CreateOutcome(ts, tid, mainThreadId, os);
      |a.tables| == |ts| && (ts == [] ==> a.index.None?) &&
      (a.index.Some? ==> a.index.value < |ts| && ts[a.index.value].threadId == tid)
  {
  }

  /** The lookup-else-create pattern of SetThreadBreakpoint, ClearThreadBreakpoint and the next-available searches. */
  function AcquireOutcome(ts: seq<Table>, tid: ThreadId, mainThreadId: ThreadId, os: Os): Acquired
  {
    match FindTable(ts, tid)
    case Some(k) => Acquired(Some(k), ts, false)
    case None => CreateOutcome(ts, tid, mainThreadId, os)
  }

  /** Creation never breaks the four-slot shape, and returns a table of the new list. */
  lemma AcquireShape(ts: seq<Table>, tid: ThreadId, mainThreadId: ThreadId, os: Os)
    requires ValidTables(ts)
    ensures var a := AcquireOutcome(ts, tid, mainThreadId, os);
      ValidTables(a.tables) && |a.tables| >= |ts| &&
      (a.index.Some? ==> a.index.value < |a.tables|) &&
      (forall j :: 0 <= j < |ts| && (a.index.None? || j != a.index.value) ==> a.tables[j] == ts[j])
  {
  }

  /**
   * Looking up or creating the table of a thread some table already carries
   * keeps the list length and every table's thread id.
   */
  lemma AcquireKeepsIds(ts: seq<Table>, tid: ThreadId, mainThreadId: ThreadId, os: Os)
    requires exists j :: 0 <= j < |ts| && ts[j].threadId == tid
    ensures var a := AcquireOutcome(ts, tid, mainThreadId, os);
      |a.tables| == |ts| && forall j :: 0 <= j < |ts| ==> a.tables[j].threadId == ts[j].threadId
  {
    var j :| 0 <= j < |ts| && ts[j].threadId == tid;
    assert ReuseIndex(ts, tid) <= j;
  }

  /** Create-then-lookup: after a successful creation, looking the thread up finds the table created. */
  lemma CreatedIsFound(ts: seq<Table>, tid: ThreadId, mainThreadId: ThreadId, os: Os)
    requires CreateOutcome(ts, tid, mainThreadId, os).index.Some?
    ensures var a := CreateOutcome(ts, tid, mainThreadId, os);
      FindTable(a.tables, tid) == a.index
  {
    var a := CreateOutcome(ts, tid, mainThreadId, os);
    var t0 := Seeded(ts, mainThreadId);
    var k := a.index.value;
    assert tid != 0;
    forall j | 0 <= j < k
      ensures HandleThreadId(a.tables[j].handle) != tid
    {
      assert a.tables[j] == t0[j];
      assert !(t0[j].handle == Some(tid));
    }
    FindTableFirst(a.tables, tid, k);
  }

  /** A table that opens `tid`, with none before it doing so, is the one lookup returns. */
  lemma FindTableFirst(ts: seq<Table>, tid: ThreadId, k: nat)
    requires k < |ts| && HandleThreadId(ts[k].handle) == tid
    requires forall j :: 0 <= j < k ==> HandleThreadId(ts[j].handle) != tid
    ensures FindTable(ts, tid) == Some(k)
  {
  }

  /** Lookup-else-create returns the table a later lookup finds. */
  lemma AcquiredIsFound(ts: seq<Table>, tid: ThreadId, mainThreadId: ThreadId, os: Os)
    requires AcquireOutcome(ts, tid, mainThreadId, os).index.Some?
    ensures var a := AcquireOutcome(ts, tid, mainThreadId, os);
      FindTable(a.tables, tid) == a.index
  {
    if FindTable(ts, tid).None? {
      CreatedIsFound(ts, tid, mainThreadId, os);
    }
  }

  /** In a well-formed registry every table is found by its own thread id. */
  lemma FindInWellFormed(ts: seq<Table>, i: nat)
    requires WellFormed(ts) && i < |ts|
    ensures FindTable(ts, ts[i].threadId) == Some(i)
  {
  }

  /**
   * Creating the table of a thread that has none keeps a well-formed registry
   * well formed and appends; a thread that has one is refused.
   */
  lemma {:induction false} CreateInWellFormed(ts: seq<Table>, tid: ThreadId, mainThreadId: ThreadId, os: Os)
    requires WellFormed(ts) && ts != []
    ensures var a := CreateOutcome(ts, tid, mainThreadId, os);
      WellFormed(a.tables) &&
      (a.index.Some? <==> (tid in os.openable && os.allocates && forall j :: 0 <= j < |ts| ==> ts[j].threadId != tid)) &&
      (a.index.Some? ==> a.index.value == |ts| && a.tables == ts + [Adopt(ZeroTable, tid)])
  {
    var k := ReuseIndex(ts, tid);
    if k < |ts| {
      assert ts[k].handle == Some(tid);
      assert HandleClash(ts, tid);
    }
  }

  // ---- next available slot ----

  /** The lowest-index slot whose address is NULL. */
  function NextFree(slots: seq<Slot>): (r: Option<nat>)
    ensures r.Some? ==> r.value < |slots| && slots[r.value].address == 0
    ensures r.Some? ==> forall i :: 0 <= i < r.value ==> slots[i].address != 0
    ensures r.None? ==> forall i :: 0 <= i < |slots| ==> slots[i].address != 0
  {
    if slots == [] then None
    else if slots[0].address == 0 then Some(0)
    else match NextFree(slots[1..])
      case None => None
      case Some(i) => Some(i + 1)
  }

  /**
   * GetNextAvailableBreakpoint's walk: every table whose handle opens `tid`
   * is searched in list order, and the first free slot found wins.
   */
  function FirstFreeForThread(ts: seq<Table>, tid: ThreadId): Option<nat>
  {
    if ts == [] then None
    else if HandleThreadId(ts[0].handle) == tid && NextFree(ts[0].slots).Some? then NextFree(ts[0].slots)
    else FirstFreeForThread(ts[1..], tid)
  }

  /** In a well-formed registry the walk answers from the thread's own table. */
  lemma {:induction false} FirstFreeInWellFormed(ts: seq<Table>, i: nat)
    requires WellFormed(ts) && i < |ts|
    ensures FirstFreeForThread(ts, ts[i].threadId) == NextFree(ts[i].slots)
  {
    if i == 0 {
      FirstFreeNoMatch(ts[1..], ts[0].threadId);
    } else {
      assert WellFormed(ts[1..]);
      FirstFreeInWellFormed(ts[1..], i - 1);
    }
  }

  lemma {:induction false} FirstFreeNoMatch(ts: seq<Table>, tid: ThreadId)
    requires forall j :: 0 <= j < |ts| ==> HandleThreadId(ts[j].handle) != tid
    ensures FirstFreeForThread(ts, tid) == None
  {
    if ts != [] {
      FirstFreeNoMatch(ts[1..], tid);
    }
  }

  /**
   * Filling the slot the search picked moves the search on: the next search
   * finds a later slot or none, so repeated requests take distinct registers.
   */
  lemma {:induction false} NextFreeAfterFill(slots: seq<Slot>, i: nat, s: Slot)
    requires NextFree(slots) == Some(i) && s.address != 0
    ensures var n := NextFree(slots[i := s]); n.None? || n.value > i
  {
    if i > 0 {
      NextFreeAfterFill(slots[1..], i - 1, s);
      assert slots[i := s][1..] == slots[1..][i - 1 := s];
    }
  }

  /** Registries with the same ids and handles are well formed together. */
  lemma WellFormedByIds(a: seq<Table>, b: seq<Table>)
    requires WellFormed(a) && |a| == |b|
    requires forall j :: 0 <= j < |a| ==> a[j].threadId == b[j].threadId && a[j].handle == b[j].handle
    ensures WellFormed(b)
  {
  }

  // ---- range clearing ----

  /**
   * `Base <= Address < Base + Size`, with the end computed in pointer
   * arithmetic (modulo 2^64 on x64).
   */
  predicate InRange(address: nat, base: nat, size: nat)
  {
    base <= address < (base + size) % Word64
  }

  /** A NULL (unarmed) slot never lies in a range with a non-NULL base. */
  lemma UnarmedNeverInRange(base: nat, size: nat)
    requires base != 0
    ensures !InRange(0, base, size)
  {
  }

  /** Some table has register `r` armed inside the range. */
  predicate RangeHit(ts: seq<Table>, r: nat, base: nat, size: nat)
    requires ValidTables(ts) && r < 4
  {
    exists j :: 0 <= j < |ts| && InRange(ts[j].slots[r].address, base, size)
  }

  /** A slot after ContextClearBreakpoint: address, size, type and hit count zero; register, callback and handle kept. */
  function Unarmed(s: Slot): Slot
  {
    s.(size := 0, address := 0, kind := 0, hitCount := 0)
  }

  /** A slot emptied in full: every field zero except the thread handle. */
  function Emptied(s: Slot): Slot
  {
    ZeroSlot.(threadHandle := s.threadHandle)
  }

  /** A slot cleared by ClearThreadBreakpoint: size, address, type, count and callback zero; register and handle kept. */
  function Cleared(s: Slot): Slot
  {
    s.(size := 0, address := 0, kind := 0, hitCount := 0, callback := 0)
  }

  /** ClearBreakpoint's slot update: the handle refreshed from the table, then cleared. */
  function Wiped(s: Slot, tableHandle: Option<ThreadId>): Slot
  {
    Cleared(s.(threadHandle := if tableHandle.Some? then tableHandle else s.threadHandle))
  }

  /** The slots of a table emptied in full, as the clear-all operations leave them. */
  function ZeroSlots(t: Table): (r: Table)
    ensures r.threadId == t.threadId && r.handle == t.handle && |r.slots| == |t.slots|
  {
    t.(slots := seq(|t.slots|, i requires 0 <= i < |t.slots| => Emptied(t.slots[i])))
  }
}
