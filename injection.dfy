/**
 * The injection registries of CAPE/Injection.c: the list of processes the
 * monitor has seen being created, opened or written to (InjectionInfoList),
 * the list of shared-section views (SectionViewList), and the decisions the
 * API hook handlers take with them.
 *
 * The linked lists become `seq` fields of a registry object that the
 * operations reassign. An entry "pointer" returned by a lookup is the
 * entry's index. InjectionInfo entries are found by value (pid or process
 * handle), so they are datatype values; section views are found by node
 * identity, so they are objects. Allocation, the pid behind a handle, the
 * image base of a process and the dump routines are oracle parameters.
 */
module Injection {
  import opened Basics

  /** One process the monitor tracks (struct InjectionInfo). */
  datatype InjectionInfo = InjectionInfo(
    processId: Dword,
    processHandle: nat,
    initialThreadId: Dword,
    imageBase: nat,
    entryPoint: nat,
    imageDumped: bool,
    bufferBase: nat,
    bufferSizeOfImage: Dword,
    mapDetected: bool,
    dontMonitor: bool)

  /** A freshly allocated entry: zeroed by memset, then given its pid. */
  function ZeroInfo(pid: Dword): InjectionInfo
  {
    InjectionInfo(pid, 0, 0, 0, 0, false, 0, 0, false, false)
  }

  /** One view of a shared section mapped into a target process (struct InjectionSectionView). */
  class SectionView {
    var sectionHandle: nat
    var localView: nat
    var viewSize: nat
    var targetProcessId: Dword
  }

  /** The g_config switches these handlers consult. */
  datatype Config = Config(fileOfInterest: bool, suspendLogging: bool, singleProcess: bool)

  // ---- list search and unlinking ----

  /** The first index at or after `from` whose element satisfies `p` (a list walk that stops at the first match). */
  function First<T>(s: seq<T>, p: T -> bool, from: nat): (r: Option<nat>)
    decreases |s| - from
    ensures r.Some? ==> from <= r.value < |s| && p(s[r.value])
    ensures r.Some? ==> forall j :: from <= j < r.value ==> !p(s[j])
    ensures r.None? ==> forall j :: from <= j < |s| ==> !p(s[j])
  {
    if from >= |s| then None else if p(s[from]) then Some(from) else First(s, p, from + 1)
  }

  function HasPid(pid: Dword): InjectionInfo -> bool { (e: InjectionInfo) => e.processId == pid }

  function HasHandle(h: nat): InjectionInfo -> bool { (e: InjectionInfo) => e.processHandle == h }

  function IsView(v: SectionView?): SectionView -> bool { (w: SectionView) => w == v }

  /**
   * The list after unlinking the entry at index i. An inner or last entry is
   * spliced out; unlinking the head sets the list head to NULL, which drops
   * every later entry as well.
   */
  function Unlink<T>(s: seq<T>, i: nat): seq<T>
    requires i < |s|
  {
    if i == 0 then [] else s[..i] + s[i + 1..]
  }

  /** A search of a list with one element appended finds an earlier match first, and the new element otherwise. */
  lemma {:induction false} FirstAppend<T>(s: seq<T>, x: T, p: T -> bool, from: nat)
    requires from <= |s|
    ensures First(s + [x], p, from) ==
      if First(s, p, from).Some? then First(s, p, from) else if p(x) then Some(|s|) else None
    decreases |s| - from
  {
    if from < |s| {
      assert (s + [x])[from] == s[from];
      if !p(s[from]) {
        FirstAppend(s, x, p, from + 1);
      }
    }
  }

  /** Unlinking the entry that was appended last gives back the list as it was. */
  lemma UnlinkAppended<T>(s: seq<T>, x: T)
    ensures Unlink(s + [x], |s|) == s
  {
    if |s| > 0 {
      assert (s + [x])[..|s|] == s;
    }
  }

  /** Unlinking a non-head entry removes exactly that entry and keeps the order of the others. */
  lemma UnlinkInner<T>(s: seq<T>, i: nat)
    requires 0 < i < |s|
    ensures |Unlink(s, i)| == |s| - 1
    ensures multiset(Unlink(s, i)) + multiset{s[i]} == multiset(s)
    ensures forall j :: 0 <= j < |s| - 1 ==> Unlink(s, i)[j] == s[if j < i then j else j + 1]
  {
    assert s == s[..i] + [s[i]] + s[i + 1..];
  }

  /** A pid that was not yet registered is found, after creation, at the new tail entry. */
  lemma CreatedIsFound(infos: seq<InjectionInfo>, pid: Dword)
    requires First(infos, HasPid(pid), 0).None?
    ensures First(infos + [ZeroInfo(pid)], HasPid(pid), 0) == Some(|infos|)
  {
    FirstAppend(infos, ZeroInfo(pid), HasPid(pid), 0);
  }

  /**
   * Creating an entry for a new pid, giving it a process handle no other
   * entry has, and dropping that handle again restores the registry.
   */
  lemma CreateThenDrop(infos: seq<InjectionInfo>, pid: Dword, h: nat)
    requires First(infos, HasHandle(h), 0).None?
    ensures var grown := infos + [ZeroInfo(pid).(processHandle := h)];
      First(grown, HasHandle(h), 0) == Some(|infos|) && Unlink(grown, |infos|) == infos
  {
    FirstAppend(infos, ZeroInfo(pid).(processHandle := h), HasHandle(h), 0);
    UnlinkAppended(infos, ZeroInfo(pid).(processHandle := h));
  }

  // ---- decision filters ----

  const Splwow64: string := "c:\\windows\\splwow64.exe"

  /** The processes never to be monitored when logging is suspended for a file of interest. */
  const DontMonitorList: seq<string> := [Splwow64]

  /**
   * CheckDontMonitorList: false unless both file_of_interest and
   * suspend_logging are set; then true exactly for the print-spooler helper,
   * compared without regard to case.
   */
  method CheckDontMonitorList(cfg: Config, targetProcess: string) returns (r: bool)
    ensures r == (cfg.fileOfInterest && cfg.suspendLogging && EqualsIgnoreCase(targetProcess, Splwow64))
  {
    if !cfg.fileOfInterest || !cfg.suspendLogging {
      return false;
    }
    for i := 0 to |DontMonitorList|
      invariant forall j :: 0 <= j < i ==> !EqualsIgnoreCase(targetProcess, DontMonitorList[j])
    {
      if EqualsIgnoreCase(targetProcess, DontMonitorList[i]) {
        return true;
      }
    }
    assert DontMonitorList[0] == Splwow64;
    return false;
  }

  /**
   * wcsncpy_s into a MAX_PATH buffer: copies min(count, |src|) characters
   * when they fit with their terminator, and leaves an empty string when they
   * do not. On that overflow the CRT also calls the invalid-parameter handler,
   * which by default ends the process; the empty result assumes a handler
   * that returns.
   */
  function CopyBounded(src: string, count: nat): (r: string)
    ensures |r| < MaxPath && |r| <= |src|
    ensures r == src[..|r|]
    ensures |r| == Min(count, |src|) || r == []
  {
    var n := Min(count, |src|);
    if n < MaxPath then src[..n] else []
  }

  /**
   * The name CreateProcessHandler records for a new process: the application
   * name if given; else, for a command line opening with a quote, the text
   * after it up to the next quote; else the command line up to and including
   * its first space; else the whole command line.
   */
  function TargetName(appName: Option<string>, cmdLine: Option<string>): (r: string)
    ensures |r| <= MaxPath
    ensures appName.Some? ==> |r| <= |appName.value| && r == appName.value[..|r|]
    ensures appName.None? && cmdLine.None? ==> r == []
  {
    if appName.Some? then Truncate(appName.value, MaxPath)
    else if cmdLine.None? then []
    else
      var c := cmdLine.value;
      if |c| > 0 && c[0] == '"' then CopyBounded(c[1..], Find(c[1..], '"'))
      else if Find(c, ' ') < |c| then CopyBounded(c, Find(c, ' ') + 1)
      else CopyBounded(c, |c| + 1)
  }

  /** A quoted program name is taken without its quotes and never contains one. */
  lemma TargetNameQuoted(c: string)
    requires |c| > 0 && c[0] == '"'
    requires 1 + Find(c[1..], '"') < |c| && Find(c[1..], '"') < MaxPath
    ensures var r := TargetName(None, Some(c));
      c[..|r| + 2] == ['"'] + r + ['"'] && forall i :: 0 <= i < |r| ==> r[i] != '"'
  {
    var k := Find(c[1..], '"');
    var r := TargetName(None, Some(c));
    assert r == c[1..][..k];
    assert c[..k + 2] == [c[0]] + c[1..][..k] + [c[1..][k]];
  }

  /** An unquoted command line gives its first word with the space after it. */
  lemma TargetNameFirstWord(c: string)
    requires (|c| == 0 || c[0] != '"') && Find(c, ' ') < |c| && Find(c, ' ') + 1 < MaxPath
    ensures var r := TargetName(None, Some(c));
      |r| > 0 && r == c[..|r|] && r[|r| - 1] == ' ' && forall i :: 0 <= i < |r| - 1 ==> r[i] != ' '
  {
  }

  /** How CreateProcessHandler ends: the pid was known, an entry was registered, or the NULL entry was read. */
  datatype Registration = AlreadyKnown | Registered | UndefinedNullRead

  /**
   * The write filter of WriteMemoryHandler for a buffer that holds no PE
   * image: writes of at most 0x10 bytes are ignored, and a buffer strictly
   * inside an image this entry already dumped is a section of it.
   */
  datatype WriteAction =
    | NoAction
    | UndefinedNullEntry
    | DumpedImage
    | RawImageDump(pid: Dword)
    | AlreadyDumpedSection
    | ShellcodeDump(pid: Dword)

  /** Buffer > BufferBase && Buffer < BufferBase + BufferSizeOfImage (a pointer sum, so modulo 2^64), once dumped. */
  predicate InsideDumpedImage(e: InjectionInfo, buffer: nat)
  {
    e.bufferBase != 0 && buffer > e.bufferBase
    && buffer < (e.bufferBase + e.bufferSizeOfImage) % Word64 && e.imageDumped
  }

  function NonPEWrite(e: InjectionInfo, buffer: nat, bytes: nat): (a: WriteAction)
    ensures a.ShellcodeDump? <==> bytes > 0x10 && !InsideDumpedImage(e, buffer)
    ensures a == AlreadyDumpedSection <==> bytes > 0x10 && InsideDumpedImage(e, buffer)
    ensures a.ShellcodeDump? ==> a.pid == e.processId
    ensures a == NoAction || a == AlreadyDumpedSection || a.ShellcodeDump?
  {
    if bytes <= 0x10 then NoAction
    else if InsideDumpedImage(e, buffer) then AlreadyDumpedSection
    else ShellcodeDump(e.processId)
  }

  /** A PE image write: ImageBase follows the write, and the first such write is dumped. */
  function PEWrite(e: InjectionInfo, baseAddress: nat, buffer: nat, dumpOk: bool, sizeOfImage: Dword): InjectionInfo
  {
    var e1 := e.(imageBase := baseAddress);
    if e.imageDumped then e1
    else if dumpOk then e1.(imageDumped := true, bufferBase := buffer, bufferSizeOfImage := sizeOfImage)
    else e1.(imageDumped := false)
  }

  function PEAction(e: InjectionInfo, dumpOk: bool): WriteAction
  {
    if e.imageDumped then NoAction else if dumpOk then DumpedImage else RawImageDump(e.processId)
  }

  /** A PE image is dumped at most once per entry: a second PE write to a dumped entry dumps nothing. */
  lemma PEDumpedOnce(e: InjectionInfo, b1: nat, buf1: nat, b2: nat, buf2: nat, ok1: bool, ok2: bool, size1: Dword, size2: Dword)
    requires PEAction(e, ok1) == DumpedImage
    ensures var e1 := PEWrite(e, b1, buf1, ok1, size1);
      e1.imageDumped && e1.bufferBase == buf1 && PEAction(e1, ok2) == NoAction
      && PEWrite(e1, b2, buf2, ok2, size2) == e1.(imageBase := b2)
  {
  }

  /**
   * After a successful PE dump, a later non-PE write that starts strictly
   * inside the dumped image (and lies below the top of the address space) is
   * not dumped again.
   */
  lemma SectionOfDumpedImageSkipped(e: InjectionInfo, base: nat, buf: nat, size: Dword, later: nat, bytes: nat)
    requires PEAction(e, true) == DumpedImage
    requires buf != 0 && buf < later < buf + size && buf + size < Word64 && bytes > 0x10
    ensures NonPEWrite(PEWrite(e, base, buf, true, size), later, bytes) == AlreadyDumpedSection
  {
  }

  /**
   * The entry WriteMemoryHandler works on: the one registered for the pid,
   * else (for another process) a new entry for it when allocation succeeds.
   */
  function Track(infos: seq<InjectionInfo>, pid: Dword, handle: nat, currentPid: Dword, imageBase: nat, allocOk: bool)
    : (r: (seq<InjectionInfo>, Option<nat>))
    ensures r.1.Some? ==> r.1.value < |r.0| && r.0[r.1.value].processId == pid
    ensures r.0 == infos || (|r.0| == |infos| + 1 && r.0[..|infos|] == infos && r.1 == Some(|infos|))
  {
    var found := First(infos, HasPid(pid), 0);
    if found.Some? then (infos, found)
    else if pid == currentPid || !allocOk then (infos, None)
    else (infos + [ZeroInfo(pid).(processHandle := handle, imageBase := imageBase)], Some(|infos|))
  }

  // ---- the process-creation message ----

  /**
   * The PROCESS message ProcessMessage sends down the pipe, or None when it
   * sends nothing: for its own process, for an entry marked DontMonitor, and
   * in single-process mode. A zero thread id is replaced by the entry's
   * initial thread id.
   */
  function Message(infos: seq<InjectionInfo>, pid: Dword, tid: Dword, currentPid: Dword, cfg: Config): (m: Option<string>)
    ensures m.None? <==>
      pid == currentPid || cfg.singleProcess
      || (First(infos, HasPid(pid), 0).Some? && infos[First(infos, HasPid(pid), 0).value].dontMonitor)
  {
    if pid == currentPid then None
    else
      var found := First(infos, HasPid(pid), 0);
      var t := if found.Some? && tid == 0 then infos[found.value].initialThreadId else tid;
      if found.Some? && infos[found.value].dontMonitor then None
      else if cfg.singleProcess then None
      else Some(ProcessLine(pid, t))
  }

  /** "PROCESS:0:%d,%d" */
  function ProcessLine(pid: Dword, tid: Dword): string
  {
    "PROCESS:0:" + DwordAsD(pid) + "," + DwordAsD(tid)
  }

  lemma SignedDecimalHasNoComma(i: int)
    ensures forall k :: 0 <= k < |SignedDecimal(i)| ==> SignedDecimal(i)[k] != ','
  {
    var s := SignedDecimal(i);
    forall k | 0 <= k < |s|
      ensures s[k] != ','
    {
      if i < 0 {
        if k > 0 {
          assert s[k] == Decimal(-i)[k - 1];
        }
      } else {
        assert IsDigit(s[k], 10);
      }
    }
  }

  /** Two comma-free fields before a comma are recovered from the joined text. */
  lemma SplitAtComma(a: string, b: string, c: string, d: string)
    requires forall k :: 0 <= k < |a| ==> a[k] != ','
    requires forall k :: 0 <= k < |c| ==> c[k] != ','
    requires a + "," + b == c + "," + d
    ensures a == c && b == d
  {
    var x := a + "," + b;
    assert x[|a|] == ',' && forall k :: 0 <= k < |a| ==> x[k] == a[k];
    assert x[|c|] == ',' && forall k :: 0 <= k < |c| ==> x[k] == c[k];
    assert Find(x, ',') == |a| == |c|;
    assert a == x[..|a|] && c == x[..|c|];
    assert b == x[|a| + 1..] && d == x[|c| + 1..];
  }

  /** %d of a DWORD opens with a minus sign exactly when the value reads as a negative `int`. */
  lemma DwordAsDSign(u: Dword)
    ensures (DwordAsD(u)[0] == '-') == (ToInt32(u) < 0)
  {
    SignedDecimalSign(ToInt32(u));
  }

  lemma DwordAsDInjective(u: Dword, v: Dword)
    requires DwordAsD(u) == DwordAsD(v)
    ensures u == v
  {
    SignedDecimalInjective(ToInt32(u), ToInt32(v));
  }

  /** The PROCESS line determines the pid and thread id it was made from. */
  lemma ProcessLineInjective(p1: Dword, t1: Dword, p2: Dword, t2: Dword)
    requires ProcessLine(p1, t1) == ProcessLine(p2, t2)
    ensures p1 == p2 && t1 == t2
  {
    var head := "PROCESS:0:";
    var l1, l2 := ProcessLine(p1, t1), ProcessLine(p2, t2);
    assert l1[|head|..] == DwordAsD(p1) + "," + DwordAsD(t1);
    assert l2[|head|..] == DwordAsD(p2) + "," + DwordAsD(t2);
    SignedDecimalHasNoComma(ToInt32(p1));
    SignedDecimalHasNoComma(ToInt32(p2));
    SplitAtComma(DwordAsD(p1), DwordAsD(t1), DwordAsD(p2), DwordAsD(t2));
    DwordAsDInjective(p1, p2);
    DwordAsDInjective(t1, t2);
  }

  // ---- TerminateHandler ----

  /** The TerminateHandler walk stops at the first entry lacking a handle, an image base or a pid. */
  predicate Incomplete(e: InjectionInfo)
  {
    e.processHandle == 0 || e.imageBase == 0 || e.processId == 0
  }

  function StopAt(infos: seq<InjectionInfo>): (n: nat)
    ensures n <= |infos|
    ensures forall i :: 0 <= i < n ==> !Incomplete(infos[i])
    ensures n < |infos| ==> Incomplete(infos[n])
  {
    var k := First(infos, Incomplete, 0);
    if k.Some? then k.value else |infos|
  }

  /** A hollowed process (a mapped view was detected) whose image has not been dumped yet. */
  predicate Pending(e: InjectionInfo)
  {
    e.mapDetected && !e.imageDumped
  }

  /** An entry after TerminateHandler: a pending one records whether DumpProcess succeeded for its pid. */
  function AfterDump(e: InjectionInfo, dumpable: set<Dword>): InjectionInfo
  {
    if Pending(e) then e.(imageDumped := e.processId in dumpable) else e
  }

  function Dumped(s: seq<InjectionInfo>, dumpable: set<Dword>): (r: seq<InjectionInfo>)
    ensures |r| == |s|
  {
    if s == [] then [] else Dumped(s[..|s| - 1], dumpable) + [AfterDump(s[|s| - 1], dumpable)]
  }

  /** The pids DumpProcess is called for, in list order. */
  function Attempts(s: seq<InjectionInfo>): seq<Dword>
  {
    if s == [] then [] else Attempts(s[..|s| - 1]) + (if Pending(s[|s| - 1]) then [s[|s| - 1].processId] else [])
  }

  /** Each entry of the walked prefix is dumped on its own: Dumped works element by element. */
  lemma {:induction false} DumpedAt(s: seq<InjectionInfo>, dumpable: set<Dword>, i: nat)
    requires i < |s|
    ensures Dumped(s, dumpable)[i] == AfterDump(s[i], dumpable)
  {
    if i < |s| - 1 {
      DumpedAt(s[..|s| - 1], dumpable, i);
    }
  }

  /**
   * When every dump the handler attempts succeeds, running it again over the
   * same entries attempts nothing.
   */
  lemma {:induction false} SecondPassAttemptsNothing(s: seq<InjectionInfo>, dumpable: set<Dword>)
    requires forall i :: 0 <= i < |s| && Pending(s[i]) ==> s[i].processId in dumpable
    ensures Attempts(Dumped(s, dumpable)) == []
  {
    if s != [] {
      var d := Dumped(s, dumpable);
      assert d[..|d| - 1] == Dumped(s[..|s| - 1], dumpable);
      SecondPassAttemptsNothing(s[..|s| - 1], dumpable);
    }
  }

  /** One step of the TerminateHandler walk extends the dumped prefix by one entry. */
  lemma TerminateStep(s: seq<InjectionInfo>, dumpable: set<Dword>, i: nat, cur: seq<InjectionInfo>)
    requires i < |s| && cur == Dumped(s[..i], dumpable) + s[i..]
    ensures cur[i] == s[i]
    ensures Pending(s[i]) ==> Dumped(s[..i + 1], dumpable) + s[i + 1..] == cur[i := AfterDump(s[i], dumpable)]
    ensures !Pending(s[i]) ==> Dumped(s[..i + 1], dumpable) + s[i + 1..] == cur
    ensures Attempts(s[..i + 1]) == Attempts(s[..i]) + (if Pending(s[i]) then [s[i].processId] else [])
  {
    assert s[..i + 1][..i] == s[..i];
    assert s[i..] == [s[i]] + s[i + 1..];
  }

  /** The registries and the handlers that maintain them. */
  class Registry {
    var infos: seq<InjectionInfo>
    var views: seq<SectionView>

    constructor ()
      ensures infos == [] && views == []
    {
      infos := [];
      views := [];
    }

    /** GetInjectionInfo: the first entry carrying the pid, or None. */
    method GetInjectionInfo(pid: Dword) returns (r: Option<nat>)
      ensures r == First(infos, HasPid(pid), 0)
    {
      var i := 0;
      while i < |infos|
        invariant i <= |infos|
        invariant First(infos, HasPid(pid), i) == First(infos, HasPid(pid), 0)
      {
        if infos[i].processId == pid {
          return Some(i);
        }
        i := i + 1;
      }
      return None;
    }

    /** GetInjectionInfoFromHandle: the first entry carrying the process handle, or None. */
    method GetInjectionInfoFromHandle(handle: nat) returns (r: Option<nat>)
      ensures r == First(infos, HasHandle(handle), 0)
    {
      var i := 0;
      while i < |infos|
        invariant i <= |infos|
        invariant First(infos, HasHandle(handle), i) == First(infos, HasHandle(handle), 0)
      {
        if infos[i].processHandle == handle {
          return Some(i);
        }
        i := i + 1;
      }
      return None;
    }

    /**
     * CreateInjectionInfo: the existing entry for the pid, list unchanged;
     * otherwise one zeroed entry for it appended at the tail, or None when
     * the allocation fails.
     */
    method CreateInjectionInfo(pid: Dword, allocOk: bool) returns (r: Option<nat>)
      modifies this`infos
      ensures var found := First(old(infos), HasPid(pid), 0);
        if found.Some? then r == found && infos == old(infos)
        else if allocOk then r == Some(|old(infos)|) && infos == old(infos) + [ZeroInfo(pid)]
        else r == None && infos == old(infos)
    {
      if infos == [] {
        if !allocOk {
          return None;
        }
        infos := [ZeroInfo(pid)];
      }
      var i := 0;
      while i < |infos|
        invariant i <= |infos|
        invariant infos == old(infos) || (old(infos) == [] && infos == [ZeroInfo(pid)])
        invariant First(infos, HasPid(pid), i) == First(infos, HasPid(pid), 0)
      {
        if infos[i].processId == pid {
          return Some(i);
        }
        i := i + 1;
      }
      if !allocOk {
        return None;
      }
      infos := infos + [ZeroInfo(pid)];
      return Some(|infos| - 1);
    }

    /**
     * DropInjectionInfo: unlinks the first entry carrying the process handle
     * and reports whether there was one.
     */
    method DropInjectionInfo(handle: nat) returns (ok: bool)
      modifies this`infos
      ensures ok == First(old(infos), HasHandle(handle), 0).Some?
      ensures infos == if ok then Unlink(old(infos), First(old(infos), HasHandle(handle), 0).value) else old(infos)
    {
      var i := 0;
      while i < |infos|
        invariant i <= |infos|
        invariant infos == old(infos)
        invariant First(infos, HasHandle(handle), i) == First(infos, HasHandle(handle), 0)
      {
        if infos[i].processHandle == handle {
          if i > 0 && i + 1 < |infos| {
            infos := infos[..i] + infos[i + 1..];
          } else if i > 0 {
            assert infos[i + 1..] == [];
            infos := infos[..i];
          } else {
            infos := [];
          }
          return true;
        }
        i := i + 1;
      }
      return false;
    }

    /**
     * DropSectionView: unlinks the given view node (matched by identity) and
     * reports whether it was in the list; an empty list gives false.
     */
    method DropSectionView(v: SectionView?) returns (ok: bool)
      modifies this`views
      ensures ok == First(old(views), IsView(v), 0).Some?
      ensures ok <==> v in old(views)
      ensures views == if ok then Unlink(old(views), First(old(views), IsView(v), 0).value) else old(views)
    {
      if views == [] {
        return false;
      }
      var i := 0;
      while i < |views|
        invariant i <= |views|
        invariant views == old(views)
        invariant First(views, IsView(v), i) == First(views, IsView(v), 0)
      {
        if views[i] == v {
          if i > 0 && i + 1 < |views| {
            views := views[..i] + views[i + 1..];
          } else if i > 0 {
            assert views[i + 1..] == [];
            views := views[..i];
          } else {
            views := [];
          }
          return true;
        }
        i := i + 1;
      }
      return false;
    }

    /**
     * CreateProcessHandler: a known pid changes nothing; a process not yet
     * registered gets an entry with its handle, initial thread, image base and
     * the don't-monitor verdict on its target name. When the entry cannot be
     * allocated, the source's failure message reads the image base through the
     * NULL entry: the model reports that undefined outcome and stops there.
     */
    method CreateProcessHandler(appName: Option<string>, cmdLine: Option<string>, pid: Dword, tid: Dword,
                                hProcess: nat, imageBase: nat, cfg: Config, allocOk: bool)
      returns (o: Registration)
      modifies this`infos
      ensures First(old(infos), HasPid(pid), 0).Some? ==> o == AlreadyKnown && infos == old(infos)
      ensures First(old(infos), HasPid(pid), 0).None? && !allocOk ==> o == UndefinedNullRead && infos == old(infos)
      ensures First(old(infos), HasPid(pid), 0).None? && allocOk ==>
        o == Registered &&
        infos == old(infos) + [ZeroInfo(pid).(processHandle := hProcess, initialThreadId := tid, imageBase := imageBase,
          dontMonitor := cfg.fileOfInterest && cfg.suspendLogging && EqualsIgnoreCase(TargetName(appName, cmdLine), Splwow64))]
    {
      var known := GetInjectionInfo(pid);
      if known.Some? {
        return AlreadyKnown;
      }
      var k := CreateInjectionInfo(pid, allocOk);
      if k.None? {
        return UndefinedNullRead;
      }
      var i := k.value;
      infos := infos[i := infos[i].(processHandle := hProcess, initialThreadId := tid, imageBase := imageBase,
                                    entryPoint := 0, imageDumped := false)];
      var dont := CheckDontMonitorList(cfg, TargetName(appName, cmdLine));
      infos := infos[i := infos[i].(dontMonitor := dont)];
      return Registered;
    }

    /**
     * WriteMemoryHandler. A zero-byte write does nothing. Otherwise the
     * target's entry is looked up or created (see Track); with no entry the
     * source goes on through a NULL pointer. A PE image is recorded and
     * dumped once (PEWrite, PEAction); any other write goes through the
     * NonPEWrite filter and changes no entry.
     */
    method WriteMemoryHandler(handle: nat, pid: Dword, currentPid: Dword, baseAddress: nat, buffer: nat, bytes: nat,
                              isPE: bool, imageBase: nat, dumpOk: bool, sizeOfImage: Dword, allocOk: bool)
      returns (a: WriteAction)
      modifies this`infos
      ensures bytes == 0 ==> a == NoAction && infos == old(infos)
      ensures bytes > 0 ==>
        var (t, k) := Track(old(infos), pid, handle, currentPid, imageBase, allocOk);
        (k.None? ==> a == UndefinedNullEntry && infos == t)
        && (k.Some? && !isPE ==> infos == t && a == NonPEWrite(t[k.value], buffer, bytes))
        && (k.Some? && isPE ==>
              infos == t[k.value := PEWrite(t[k.value], baseAddress, buffer, dumpOk, sizeOfImage)]
              && a == PEAction(t[k.value], dumpOk))
    {
      var k := GetInjectionInfo(pid);
      if bytes == 0 {
        return NoAction;
      }
      if k.None? && pid != currentPid {
        k := CreateInjectionInfo(pid, allocOk);
        if k.Some? {
          var i := k.value;
          infos := infos[i := infos[i].(processHandle := handle, processId := pid, entryPoint := 0,
                                        imageDumped := false, imageBase := imageBase)];
        }
      }
      if k.None? {
        return UndefinedNullEntry;
      }
      // An entry found or created for the pid always carries it, so the
      // source's pid comparison at this point never returns.
      var i := k.value;
      if isPE {
        var e := infos[i];
        infos := infos[i := infos[i].(imageBase := baseAddress)];
        if !infos[i].imageDumped {
          infos := infos[i := infos[i].(imageDumped := dumpOk)];
          if dumpOk {
            infos := infos[i := infos[i].(bufferBase := buffer, bufferSizeOfImage := sizeOfImage)];
            return DumpedImage;
          }
          return RawImageDump(pid);
        }
        return NoAction;
      }
      if bytes <= 0x10 {
        return NoAction;
      }
      if infos[i].bufferBase != 0 && buffer > infos[i].bufferBase
         && buffer < (infos[i].bufferBase + infos[i].bufferSizeOfImage) % Word64 && infos[i].imageDumped {
        return AlreadyDumpedSection;
      }
      return ShellcodeDump(pid);
    }

    /** ProcessMessage: the PROCESS line for a new process, or nothing. */
    method ProcessMessage(pid: Dword, tid: Dword, currentPid: Dword, cfg: Config) returns (m: Option<string>)
      ensures m == Message(infos, pid, tid, currentPid, cfg)
    {
      if pid == currentPid {
        return None;
      }
      var k := GetInjectionInfo(pid);
      var t := tid;
      if k.Some? && t == 0 {
        t := infos[k.value].initialThreadId;
      }
      if k.Some? && infos[k.value].dontMonitor {
        return None;
      }
      if cfg.singleProcess {
        return None;
      }
      return Some(ProcessLine(pid, t));
    }

    /**
     * TerminateHandler: walks the list up to the first incomplete entry and
     * tries to dump every hollowed process whose image is not dumped yet;
     * `dumpable` holds the pids for which DumpProcess succeeds.
     */
    method TerminateHandler(dumpable: set<Dword>) returns (attempted: seq<Dword>)
      modifies this`infos
      ensures var n := StopAt(old(infos));
        infos == Dumped(old(infos)[..n], dumpable) + old(infos)[n..] && attempted == Attempts(old(infos)[..n])
    {
      var i := 0;
      attempted := [];
      while i < |infos| && !Incomplete(infos[i])
        invariant i <= |infos| == |old(infos)|
        invariant forall j :: 0 <= j < i ==> !Incomplete(old(infos)[j])
        invariant infos == Dumped(old(infos)[..i], dumpable) + old(infos)[i..]
        invariant attempted == Attempts(old(infos)[..i])
      {
        TerminateStep(old(infos), dumpable, i, infos);
        if Pending(infos[i]) {
          attempted := attempted + [infos[i].processId];
          infos := infos[i := infos[i].(imageDumped := infos[i].processId in dumpable)];
        }
        i := i + 1;
      }
      assert i == StopAt(old(infos));
    }
  }
}
