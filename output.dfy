/**
 * The output side of CAPE/Output.c as built without CAPE_V1: the debug
 * strings the monitor reports (OutputString, ErrorOutput), the metadata
 * string and pipe notice CapeOutputFile attaches to every dump, and the
 * debugger log DebuggerOutput keeps, whose lines are sanitised in place
 * before they are written.
 *
 * Everything that leaves the process - a pipe message to the analysis
 * host, an OutputDebugString call, a WriteFile to the debugger log - is
 * recorded as an element of a sequence. The C strings the format calls
 * produce are given as their text; what Windows answers (allocation, the
 * log file opening, GetLastError and its message, the clock) is a
 * parameter.
 */
module Output {
  import opened Basics

  /** One message leaving the process: down the pipe, or to OutputDebugString in standalone mode. */
  datatype Sent = ToPipe(msg: string) | ToDebugger(msg: string)

  /** The g_config switches the output code reads. */
  datatype LogConfig = LogConfig(disableLogging: bool, standalone: bool, noLogs: int)

  /** The longest text a MAX_PATH buffer printed with _TRUNCATE holds. */
  const LineMax: nat := MaxPath - 1

  /** The longest dump notice: a BUFFER_SIZE (0x200) buffer printed with _TRUNCATE. */
  const NoticeMax: nat := 0x200 - 1

  /** A %s argument: the string, or "(null)" for a NULL pointer, as the MSVC runtime prints it. */
  function Text(s: Option<string>): string
  {
    if s.Some? then s.value else "(null)"
  }

  /** %x: the shortest lower-case hexadecimal rendering of `n`. */
  function LowerHex(n: nat): string
  {
    var d := "0123456789abcdef"[n % 16];
    if n < 16 then [d] else LowerHex(n / 16) + [d]
  }

  // ---- OutputString, DebugOutput, ErrorOutput ----

  /**
   * OutputString (and DebugOutput, which forwards to it) on the text its
   * format and arguments print: nothing while logging is disabled; otherwise
   * the text cut to a MAX_PATH buffer, handed to OutputDebugString in
   * standalone mode and sent down the pipe behind "DEBUG:" otherwise.
   */
  function OutputString(text: string, cfg: LogConfig): (r: seq<Sent>)
    ensures cfg.disableLogging <==> r == []
    ensures |r| <= 1
    ensures r != [] ==> (r[0].ToDebugger? <==> cfg.standalone)
  {
    if cfg.disableLogging then []
    else if cfg.standalone then [ToDebugger(Truncate(text, LineMax))]
    else [ToPipe(Truncate("DEBUG:" + Truncate(text, LineMax), LineMax))]
  }

  /**
   * What OutputString sends is the start of the text, cut only at the end
   * of the MAX_PATH buffers; down the pipe it follows the "DEBUG:" tag.
   */
  lemma OutputStringText(text: string, cfg: LogConfig)
    requires !cfg.disableLogging
    ensures var m := OutputString(text, cfg)[0].msg;
      if cfg.standalone then |m| == Min(|text|, LineMax) && IsPrefix(m, text)
      else |m| == Min(|text| + 6, LineMax) && IsPrefix("DEBUG:", m) && IsPrefix(m[6..], text)
  {
    if !cfg.standalone {
      var p := Truncate(text, LineMax);
      var m := Truncate("DEBUG:" + p, LineMax);
      assert m[6..] == p[..|m| - 6];
    }
  }

  /** The line ErrorOutput builds: the last error code in decimal and hex, the caller's text and the system's message. */
  function ErrorLine(text: string, errorCode: Dword, systemMessage: Option<string>): string
  {
    "Error " + DwordAsD(errorCode) + " (0x" + LowerHex(errorCode) + ") - " + Truncate(text, LineMax) + ": "
    + Text(systemMessage)
  }

  /**
   * ErrorOutput: reports the caller's text with the last error code and its
   * system message. A failed FormatMessage is None here; the source then
   * prints an uninitialised local pointer, whose text is undefined. Unlike
   * OutputString it does not consult disable_logging: an error is always
   * reported.
   */
  function ErrorOutput(text: string, errorCode: Dword, systemMessage: Option<string>, cfg: LogConfig): (r: seq<Sent>)
    ensures |r| == 1
    ensures r[0].ToDebugger? <==> cfg.standalone
    ensures var line := ErrorLine(text, errorCode, systemMessage);
      IsPrefix(r[0].msg, if cfg.standalone then line else "DEBUG:" + line)
      && |r[0].msg| == if cfg.standalone then Min(|line|, LineMax) else Min(|line| + 6, LineMax)
  {
    var line := ErrorLine(text, errorCode, systemMessage);
    OutputStringText(line, cfg.(disableLogging := false));
    OutputString(line, cfg.(disableLogging := false))
  }

  // ---- the metadata string and the dump notice of CapeOutputFile ----

  /** The dump type codes of cape.h (not part of this model). */
  datatype DumpCodes = DumpCodes(procDump: int, unpackedPe: int, unpackedShellcode: int,
                                 injectionPe: int, injectionShellcode: int, typeString: int)

  /** The fields of struct CapeMetadata the output code reads and writes; None is a NULL pointer. */
  datatype Metadata = Metadata(
    dumpType: int,
    pid: Dword,
    ppid: Dword,
    processPath: Option<string>,
    modulePath: Option<string>,
    address: Pointer,
    targetProcess: Option<string>,
    targetPid: Dword,
    typeString: Option<string>)

  /** What CapeOutputFile leaves behind: the updated metadata, the metadata string it built and the messages it sent. */
  datatype CapeResult = CapeResult(meta: Option<Metadata>, metadata: Option<string>, sent: seq<Sent>)

  /** The metadata layout: every field followed by the ";?" separator. */
  function Join(fields: seq<string>): (s: string)
    ensures |s| >= 2 * |fields|
  {
    if fields == [] then "" else fields[0] + ";?" + Join(fields[1..])
  }

  /**
   * How a reader takes a metadata string apart: each field ends at the next
   * "?" that follows a ";". Windows paths cannot contain '?', and neither
   * can the numbers the formats print.
   */
  function Fields(s: string): seq<string>
    decreases |s|
  {
    var k := Find(s, '?');
    if k == |s| || k == 0 || s[k - 1] != ';' then [] else [s[..k - 1]] + Fields(s[k + 1..])
  }

  predicate NoQuery(fields: seq<string>)
  {
    forall i :: 0 <= i < |fields| ==> '?' !in fields[i]
  }

  /** The metadata string reads back as the fields it was made from. */
  lemma {:induction false} FieldsOfJoin(fields: seq<string>)
    requires NoQuery(fields)
    ensures Fields(Join(fields)) == fields
  {
    if fields != [] {
      var rest := Join(fields[1..]);
      assert Join(fields) == (fields[0] + ";") + ['?'] + rest;
      assert '?' !in fields[0] + ";";
      FindAfter(fields[0] + ";", '?', rest);
      assert Join(fields)[|fields[0]| + 2..] == rest;
      assert Join(fields)[..|fields[0]|] == fields[0];
      FieldsOfJoin(fields[1..]);
      assert [fields[0]] + fields[1..] == fields;
    }
  }

  /** The numbers the formats print hold no '?'. */
  lemma NumbersHaveNoQuery(i: int, a: Pointer)
    ensures '?' !in SignedDecimal(i)
    ensures '?' !in "0x" + PointerText(a)
  {
    assert !IsDigit('?', 16);
  }

  /** A pipe message taken apart at its '|' separators. */
  function Pieces(s: string): (r: seq<string>)
    ensures |r| >= 1
    decreases |s|
  {
    var k := Find(s, '|');
    if k == |s| then [s] else [s[..k]] + Pieces(s[k + 1..])
  }

  /** The notice of a dump, before it is cut to the pipe buffer: kind, file, pids and metadata. */
  function Notice(kind: string, file: string, m: Metadata, metadata: string): string
  {
    Bar([kind + file, DwordAsD(m.pid), DwordAsD(m.ppid), metadata])
  }

  /** The message reporting a dump: the notice down the pipe, or the file name to the debugger when standalone. */
  function DumpNotice(kind: string, banner: string, file: string, m: Metadata, metadata: string, cfg: LogConfig): (r: Sent)
    ensures r.ToPipe? <==> !cfg.standalone
    ensures r.ToPipe? ==> IsPrefix(r.msg, Notice(kind, file, m, metadata)) && |r.msg| <= NoticeMax
    ensures r.ToDebugger? ==> IsPrefix(r.msg, banner + file) && |r.msg| <= LineMax
  {
    if cfg.standalone then ToDebugger(Truncate(banner + file, LineMax))
    else ToPipe(Truncate(Notice(kind, file, m, metadata), NoticeMax))
  }

  /**
   * The fields of the metadata string of a dump other than a process dump,
   * the dump type it ends up with, and whether an injection dump lacks its
   * target process.
   */
  function CapeFields(m: Metadata, path: string, codes: DumpCodes): (r: (int, seq<string>, bool))
    ensures 3 <= |r.1| <= 5 && r.1[0] == SignedDecimal(r.0) && r.1[1] == r.1[2] == path
    ensures r.0 != m.dumpType ==> r.0 == codes.typeString
  {
    var t := m.dumpType;
    if t == codes.unpackedPe || t == codes.unpackedShellcode then
      (t, [SignedDecimal(t), path, path, "0x" + PointerText(m.address)], false)
    else if t == codes.injectionPe || t == codes.injectionShellcode then
      if m.targetProcess.Some? then
        (t, [SignedDecimal(t), path, path, m.targetProcess.value, DwordAsD(m.targetPid)], false)
      else
        (t, [SignedDecimal(t), path, path], true)
    else if m.typeString.Some? && m.typeString.value != [] then
      (codes.typeString, [SignedDecimal(codes.typeString), path, path, m.typeString.value], false)
    else
      (t, [SignedDecimal(t), path, path], false)
  }

  /** The process path of a dump other than a process dump: a NULL path becomes "Unknown path". */
  function CapePath(processPath: Option<string>): (path: string)
    ensures processPath.Some? ==> path == processPath.value
    ensures '?' !in Text(processPath) ==> '?' !in path
  {
    if processPath.Some? then processPath.value else "Unknown path"
  }

  /** None of the fields holds a '?' when the strings they copy hold none. */
  lemma CapeFieldsNoQuery(m: Metadata, path: string, codes: DumpCodes)
    requires '?' !in path && '?' !in Text(m.targetProcess) && '?' !in Text(m.typeString)
    ensures NoQuery(CapeFields(m, path, codes).1)
  {
    NumbersHaveNoQuery(m.dumpType, m.address);
    NumbersHaveNoQuery(codes.typeString, m.address);
    NumbersHaveNoQuery(ToInt32(m.targetPid), m.address);
  }

  /**
   * CapeOutputFile: tells the host about a dump file. A process dump
   * records the process and module paths, the module being the DLL of
   * interest when one is set; any other dump gets a process path (made up
   * when missing) and type-specific extra fields.
   */
  function CapeOutputFile(file: string, meta: Option<Metadata>, dllOfInterest: bool,
                          fileOfInterest: Option<string>, codes: DumpCodes, cfg: LogConfig): (r: CapeResult)
    ensures meta.None? ==> r.meta.None? && r.metadata.None?
    ensures meta.Some? <==> r.meta.Some?
    ensures r.meta.Some? ==> r.meta.value.pid == meta.value.pid && r.meta.value.ppid == meta.value.ppid
    ensures r.metadata.Some? ==> |r.sent| >= 1 && r.sent[|r.sent| - 1].ToPipe? == !cfg.standalone
  {
    if meta.None? then
      CapeResult(None, None, OutputString("No CAPE metadata (or wrong type) for file: " + file + "\n", cfg))
    else
      var m := meta.value;
      if m.dumpType == codes.procDump then
        if dllOfInterest && fileOfInterest.None? then
          CapeResult(meta, None, OutputString("CAPE Error: g_config.file_of_interest is NULL.\n", cfg))
        else
          var dllPath := if dllOfInterest then fileOfInterest else m.processPath;
          var m' := m.(modulePath := dllPath);
          var md := Join([SignedDecimal(m.dumpType), Text(m.processPath), Text(dllPath)]);
          CapeResult(Some(m'), Some(md), [DumpNotice("FILE_DUMP:", "Process dump output file: ", file, m', md, cfg)])
      else
        var path := CapePath(m.processPath);
        var (t, fields, missingTarget) := CapeFields(m, path, codes);
        var m' := m.(processPath := Some(path), modulePath := Some(path), dumpType := t);
        var md := Join(fields);
        var warning :=
          if missingTarget then
            OutputString("Output: TargetProcess missing for dump from process " + DwordAsD(m.pid), cfg)
          else [];
        CapeResult(Some(m'), Some(md), warning + [DumpNotice("FILE_CAPE:", "CAPE Output file: ", file, m', md, cfg)])
  }

  /** A process dump names its process and its module; the module is the process unless a DLL of interest is set. */
  lemma ProcDumpMetadata(file: string, m: Metadata, dll: bool, fileOfInterest: Option<string>,
                         codes: DumpCodes, cfg: LogConfig)
    requires m.dumpType == codes.procDump
    requires '?' !in Text(m.processPath) && '?' !in Text(fileOfInterest)
    ensures var r := CapeOutputFile(file, Some(m), dll, fileOfInterest, codes, cfg);
      if dll && fileOfInterest.None? then
        r.meta == Some(m) && r.metadata.None?
        && r.sent == OutputString("CAPE Error: g_config.file_of_interest is NULL.\n", cfg)
      else
        var dllPath := if dll then fileOfInterest else m.processPath;
        r.meta == Some(m.(modulePath := dllPath)) && r.metadata.Some?
        && Fields(r.metadata.value) == [SignedDecimal(codes.procDump), Text(m.processPath), Text(dllPath)]
        && |r.sent| == 1
  {
    if !(dll && fileOfInterest.None?) {
      var dllPath := if dll then fileOfInterest else m.processPath;
      NumbersHaveNoQuery(m.dumpType, m.address);
      FieldsOfJoin([SignedDecimal(m.dumpType), Text(m.processPath), Text(dllPath)]);
    }
  }

  /** Every other dump leaves with a process path ("Unknown path" when it had none) that is also its module path. */
  lemma CapeDumpPaths(file: string, m: Metadata, dll: bool, fileOfInterest: Option<string>,
                      codes: DumpCodes, cfg: LogConfig)
    requires m.dumpType != codes.procDump
    requires '?' !in Text(m.processPath) && '?' !in Text(m.targetProcess) && '?' !in Text(m.typeString)
    ensures var r := CapeOutputFile(file, Some(m), dll, fileOfInterest, codes, cfg);
      var path := CapePath(m.processPath);
      (m.processPath.None? ==> path == "Unknown path")
      && r.meta.Some? && r.meta.value.processPath == r.meta.value.modulePath == Some(path)
      && r.metadata.Some? && |Fields(r.metadata.value)| >= 3
      && Fields(r.metadata.value)[0] == SignedDecimal(r.meta.value.dumpType)
      && Fields(r.metadata.value)[1] == Fields(r.metadata.value)[2] == path
  {
    var path := CapePath(m.processPath);
    var (t, fields, _) := CapeFields(m, path, codes);
    var r := CapeOutputFile(file, Some(m), dll, fileOfInterest, codes, cfg);
    assert r.metadata == Some(Join(fields));
    CapeFieldsNoQuery(m, path, codes);
    FieldsOfJoin(fields);
  }

  /** Unpacked PE and shellcode dumps carry the dump address as a fourth field, which reads back as the address. */
  lemma UnpackedDumpAddress(file: string, m: Metadata, dll: bool, fileOfInterest: Option<string>,
                            codes: DumpCodes, cfg: LogConfig)
    requires m.dumpType != codes.procDump
    requires m.dumpType == codes.unpackedPe || m.dumpType == codes.unpackedShellcode
    requires '?' !in Text(m.processPath)
    ensures var r := CapeOutputFile(file, Some(m), dll, fileOfInterest, codes, cfg);
      r.metadata.Some? && |Fields(r.metadata.value)| == 4 && r.meta.value.dumpType == m.dumpType
      && IsPrefix("0x", Fields(r.metadata.value)[3])
      && ValueOf(Fields(r.metadata.value)[3][2..], 16) == m.address
  {
    var path := CapePath(m.processPath);
    var fields := [SignedDecimal(m.dumpType), path, path, "0x" + PointerText(m.address)];
    var r := CapeOutputFile(file, Some(m), dll, fileOfInterest, codes, cfg);
    assert CapeFields(m, path, codes) == (m.dumpType, fields, false);
    assert r.metadata == Some(Join(fields));
    NumbersHaveNoQuery(m.dumpType, m.address);
    FieldsOfJoin(fields);
    assert fields[3][2..] == PointerText(m.address);
    PointerTextRoundTrip(m.address);
  }

  /**
   * Injection dumps name the target process and pid only when the target
   * process is known; without it they fall back to the three common fields
   * and report the missing target.
   */
  lemma InjectionDumpTarget(file: string, m: Metadata, dll: bool, fileOfInterest: Option<string>,
                            codes: DumpCodes, cfg: LogConfig)
    requires m.dumpType != codes.procDump
    requires m.dumpType != codes.unpackedPe && m.dumpType != codes.unpackedShellcode
    requires m.dumpType == codes.injectionPe || m.dumpType == codes.injectionShellcode
    requires '?' !in Text(m.processPath) && '?' !in Text(m.targetProcess)
    ensures var r := CapeOutputFile(file, Some(m), dll, fileOfInterest, codes, cfg);
      r.metadata.Some? && r.meta.value.dumpType == m.dumpType
      && (m.targetProcess.Some? ==>
            |Fields(r.metadata.value)| == 5 && Fields(r.metadata.value)[3] == m.targetProcess.value
            && Fields(r.metadata.value)[4] == DwordAsD(m.targetPid) && |r.sent| == 1)
      && (m.targetProcess.None? ==>
            |Fields(r.metadata.value)| == 3
            && r.sent[..|r.sent| - 1]
               == OutputString("Output: TargetProcess missing for dump from process " + DwordAsD(m.pid), cfg))
  {
    var path := CapePath(m.processPath);
    var fields := if m.targetProcess.Some? then
        [SignedDecimal(m.dumpType), path, path, m.targetProcess.value, DwordAsD(m.targetPid)]
      else [SignedDecimal(m.dumpType), path, path];
    assert CapeFields(m, path, codes) == (m.dumpType, fields, m.targetProcess.None?);
    var r := CapeOutputFile(file, Some(m), dll, fileOfInterest, codes, cfg);
    assert r.metadata == Some(Join(fields));
    NumbersHaveNoQuery(m.dumpType, m.address);
    NumbersHaveNoQuery(ToInt32(m.targetPid), m.address);
    FieldsOfJoin(fields);
  }

  /** Any other dump with a non-empty type string is relabelled TYPE_STRING and carries the string as a fourth field. */
  lemma TypeStringDump(file: string, m: Metadata, dll: bool, fileOfInterest: Option<string>,
                       codes: DumpCodes, cfg: LogConfig)
    requires m.dumpType !in {codes.procDump, codes.unpackedPe, codes.unpackedShellcode}
    requires m.dumpType !in {codes.injectionPe, codes.injectionShellcode}
    requires '?' !in Text(m.processPath) && '?' !in Text(m.typeString)
    ensures var r := CapeOutputFile(file, Some(m), dll, fileOfInterest, codes, cfg);
      r.metadata.Some? && |r.sent| == 1
      && if m.typeString.Some? && m.typeString.value != [] then
        r.meta.value.dumpType == codes.typeString && |Fields(r.metadata.value)| == 4
        && Fields(r.metadata.value)[0] == SignedDecimal(codes.typeString)
        && Fields(r.metadata.value)[3] == m.typeString.value
      else
        r.meta.value.dumpType == m.dumpType && |Fields(r.metadata.value)| == 3
  {
    var path := CapePath(m.processPath);
    var relabel := m.typeString.Some? && m.typeString.value != [];
    var t := if relabel then codes.typeString else m.dumpType;
    var fields := if relabel then [SignedDecimal(t), path, path, m.typeString.value] else [SignedDecimal(t), path, path];
    assert CapeFields(m, path, codes) == (t, fields, false);
    var r := CapeOutputFile(file, Some(m), dll, fileOfInterest, codes, cfg);
    assert r.metadata == Some(Join(fields));
    NumbersHaveNoQuery(t, m.address);
    FieldsOfJoin(fields);
  }

  /** A '|'-joined message reads back as its pieces. */
  lemma {:induction false} PiecesOfJoin(pieces: seq<string>)
    requires |pieces| >= 1
    requires forall i :: 0 <= i < |pieces| ==> '|' !in pieces[i]
    ensures Pieces(Bar(pieces)) == pieces
    decreases |pieces|
  {
    if |pieces| > 1 {
      PiecesStep(pieces[0], Bar(pieces[1..]));
      PiecesOfJoin(pieces[1..]);
      assert [pieces[0]] + pieces[1..] == pieces;
    } else {
      FindAbsent(pieces[0], '|');
    }
  }

  /** The first piece of a message ends at its first '|'. */
  lemma PiecesStep(first: string, rest: string)
    requires '|' !in first
    ensures Pieces(first + "|" + rest) == [first] + Pieces(rest)
  {
    var s := first + "|" + rest;
    FindAfter(first, '|', rest);
    assert s[|first| + 1..] == rest;
    assert s[..|first|] == first;
  }

  /** Pieces joined by '|'. */
  function Bar(pieces: seq<string>): string
    requires |pieces| >= 1
  {
    if |pieces| == 1 then pieces[0] else pieces[0] + "|" + Bar(pieces[1..])
  }

  /**
   * The pipe message of a dump other than a process dump: when it fits the
   * pipe buffer, its '|'-separated pieces are the file (behind FILE_CAPE:),
   * the pid, the parent pid and the metadata string.
   */
  lemma CapeNoticeFields(file: string, m: Metadata, dll: bool, fileOfInterest: Option<string>,
                         codes: DumpCodes, cfg: LogConfig)
    requires m.dumpType != codes.procDump && !cfg.standalone
    requires '|' !in file
    requires var r := CapeOutputFile(file, Some(m), dll, fileOfInterest, codes, cfg);
      '|' !in r.metadata.value && |Notice("FILE_CAPE:", file, r.meta.value, r.metadata.value)| <= NoticeMax
    ensures var r := CapeOutputFile(file, Some(m), dll, fileOfInterest, codes, cfg);
      r.sent[|r.sent| - 1].ToPipe?
      && Pieces(r.sent[|r.sent| - 1].msg)
         == ["FILE_CAPE:" + file, DwordAsD(m.pid), DwordAsD(m.ppid), r.metadata.value]
  {
    var r := CapeOutputFile(file, Some(m), dll, fileOfInterest, codes, cfg);
    var pieces := ["FILE_CAPE:" + file, DwordAsD(m.pid), DwordAsD(m.ppid), r.metadata.value];
    assert !IsDigit('|', 10) && !IsDigit('-', 10);
    assert '|' !in "FILE_CAPE:" + file;
    PiecesOfJoin(pieces);
  }

  /**
   * The pipe message of a process dump: when it fits the pipe buffer, its
   * '|'-separated pieces are the file (behind FILE_DUMP:), the pid, the
   * parent pid and the metadata string.
   */
  lemma ProcNoticeFields(file: string, m: Metadata, dll: bool, fileOfInterest: Option<string>,
                         codes: DumpCodes, cfg: LogConfig)
    requires m.dumpType == codes.procDump && !cfg.standalone && !(dll && fileOfInterest.None?)
    requires '|' !in file
    requires var r := CapeOutputFile(file, Some(m), dll, fileOfInterest, codes, cfg);
      '|' !in r.metadata.value && |Notice("FILE_DUMP:", file, r.meta.value, r.metadata.value)| <= NoticeMax
    ensures var r := CapeOutputFile(file, Some(m), dll, fileOfInterest, codes, cfg);
      |r.sent| == 1 && r.sent[0].ToPipe?
      && Pieces(r.sent[0].msg) == ["FILE_DUMP:" + file, DwordAsD(m.pid), DwordAsD(m.ppid), r.metadata.value]
  {
    var r := CapeOutputFile(file, Some(m), dll, fileOfInterest, codes, cfg);
    var pieces := ["FILE_DUMP:" + file, DwordAsD(m.pid), DwordAsD(m.ppid), r.metadata.value];
    assert !IsDigit('|', 10) && !IsDigit('-', 10);
    assert '|' !in "FILE_DUMP:" + file;
    PiecesOfJoin(pieces);
  }

  // ---- the debugger log of DebuggerOutput ----

  /** The characters the debugger log keeps: line feed to tilde. */
  predicate Printable(c: char)
  {
    '\n' <= c <= '~'
  }

  /** strlen: a C string ends at its first NUL. */
  function CString(s: string): (r: string)
    ensures '\0' !in r
  {
    s[..Find(s, '\0')]
  }

  /** DebuggerLine after memset and a _TRUNCATE print of `t`: the text, then NULs up to MAX_PATH. */
  function LineBuffer(t: string): (b: string)
    ensures |b| == MaxPath && b[LineMax] == '\0'
    ensures '\0' !in t ==> CString(b) == Truncate(t, LineMax)
  {
    var p := Truncate(t, LineMax);
    var b := p + seq(MaxPath - |p|, _ => '\0');
    assert b[|p|] == '\0';
    b
  }

  /**
   * The buffer after the sanitising loop: up to its terminating NUL every
   * character outside line feed..tilde has become '?'.
   */
  function Sanitized(s: string): (r: string)
    ensures |r| == |s|
    ensures Find(r, '\0') == Find(s, '\0')
    ensures forall i :: 0 <= i < Find(s, '\0') ==> Printable(r[i])
    ensures forall i :: 0 <= i < |s| && (Printable(s[i]) || Find(s, '\0') <= i) ==> r[i] == s[i]
  {
    var k := Find(s, '\0');
    var r := seq(|s|, i requires 0 <= i < |s| => if i < k && !Printable(s[i]) then '?' else s[i]);
    FindAt(r, '\0', k);
    r
  }

  /** Sanitising a sanitised buffer changes nothing. */
  lemma SanitizedIdempotent(s: string)
    ensures Sanitized(Sanitized(s)) == Sanitized(s)
  {
    var r := Sanitized(s);
    assert forall i :: 0 <= i < |r| ==> Sanitized(r)[i] == r[i];
  }

  /** A line as the sanitising loop leaves it: in line feed..tilde and short enough for DebuggerLine. */
  predicate CleanLine(l: string)
  {
    |l| <= LineMax && forall j :: 0 <= j < |l| ==> Printable(l[j])
  }

  /** The line a DebuggerOutput call writes for the text `t`. */
  function Logged(t: string): (r: string)
    ensures CleanLine(r)
  {
    CString(Sanitized(LineBuffer(t)))
  }

  /** A line already in range, without NUL and short enough, reaches the log untouched. */
  lemma LoggedUnchanged(t: string)
    requires |t| <= LineMax && '\0' !in t
    requires forall i :: 0 <= i < |t| ==> Printable(t[i])
    ensures Logged(t) == t
  {
    var b := LineBuffer(t);
    assert Find(b, '\0') == |t| by {
      assert b[..|t|] == t;
      assert b[|t|] == '\0';
    }
    var r := Sanitized(b);
    assert forall i :: 0 <= i < |t| ==> r[i] == t[i];
  }

  /** Whether the debugger log file is yet to be opened, open, or failed to open (INVALID_HANDLE_VALUE). */
  datatype LogHandle = Unopened | Opened | Invalid

  /** The output state DebuggerOutput changes: its log handle, the lines written to the log, the messages sent. */
  datatype LogState = LogState(handle: LogHandle, written: seq<string>, sent: seq<Sent>)

  /** What Windows answers during one DebuggerOutput call. */
  datatype Answers = Answers(
    nameAllocated: bool,             // malloc of the file name succeeds
    opens: bool,                     // CreateFile of the log succeeds
    errorCode: Dword,                // GetLastError
    systemMessage: Option<string>,   // FormatMessage of that code
    logPath: string,                 // GetResultsPath("debugger") with "<pid>.log" appended
    timeText: string)                // ctime_s of the current time

  /** The first line of a new debugger log. */
  function Header(timeText: string): string
  {
    "CAPE Sandbox - Debugger log: " + timeText
  }

  /** The format's leading line feeds, which the first line of a new log drops, lead the text it prints. */
  predicate LeadingNewlines(text: string, lead: nat)
  {
    lead <= |text| && forall i :: 0 <= i < lead ==> text[i] == '\n'
  }

  /** The text DebuggerOutput prints into DebuggerLine and sanitises, when it gets that far. */
  function LinePrinted(h: LogHandle, text: string, lead: nat, cfg: LogConfig, stopTrace: bool, env: Answers): Option<string>
    requires lead <= |text|
  {
    if cfg.noLogs != 0 || !env.nameAllocated || stopTrace then None
    else if h == Unopened then (if env.opens then Some(text[lead..]) else None)
    else Some(text)
  }

  /** The diagnostic naming a newly opened log. */
  function OpenedMessage(logPath: string): string
  {
    "DebuggerOutput: Debugger logfile " + logPath + ".\n"
  }

  /** The error reported when the log cannot be opened. */
  function OpenFailedMessage(logPath: string): string
  {
    "DebuggerOutput: Unable to open debugger logfile " + logPath + ".\n"
  }

  /** Opening the log: an open handle and the header line, or an invalid handle and an error report. */
  function OpenStep(s: LogState, cfg: LogConfig, env: Answers): (r: LogState)
    ensures r.handle == if env.opens then Opened else Invalid
    ensures r.written == s.written + if env.opens then [CString(LineBuffer(Header(env.timeText)))] else []
  {
    if !env.opens then
      LogState(Invalid, s.written, s.sent + ErrorOutput(OpenFailedMessage(env.logPath), env.errorCode, env.systemMessage, cfg))
    else
      LogState(Opened, s.written + [CString(LineBuffer(Header(env.timeText)))], s.sent + OutputString(OpenedMessage(env.logPath), cfg))
  }

  /** Lines as the sanitising loop leaves them. */
  predicate CleanLines(lines: seq<string>)
  {
    forall i :: 0 <= i < |lines| ==> CleanLine(lines[i])
  }

  /** Two runs of clean lines make one. */
  lemma CleanLinesJoin(w: seq<string>, m: nat, n: nat)
    requires m <= n <= |w| && CleanLines(w[m..n]) && CleanLines(w[n..])
    ensures CleanLines(w[m..])
  {
    assert forall i :: m <= i < n ==> w[i] == w[m..n][i - m];
    assert forall i :: n <= i < |w| ==> w[i] == w[n..][i - n];
  }

  /** Writing a sanitised line: it reaches the log only through an open handle. */
  function WriteStep(s: LogState, t: string): (r: LogState)
    ensures r.handle == s.handle && r.sent == s.sent
    ensures r.written == s.written + if s.handle == Opened then [Logged(t)] else []
    ensures CleanLines(r.written[|s.written|..])
  {
    var r := if s.handle == Opened then s.(written := s.written + [Logged(t)]) else s;
    assert r.written[|s.written|..] == if s.handle == Opened then [Logged(t)] else [];
    r
  }

  /** The first call outside StopTrace: open the log, then write the line without the format's leading line feeds. */
  function FirstStep(s: LogState, text: string, lead: nat, cfg: LogConfig, env: Answers): LogState
    requires lead <= |text|
  {
    var o := OpenStep(s, cfg, env);
    if env.opens then WriteStep(o, text[lead..]) else o
  }

  /**
   * One DebuggerOutput call. no_logs above one silences it, any other
   * non-zero no_logs turns it into OutputString. The first call without
   * StopTrace opens the log and writes a header; a failed open leaves an
   * invalid handle behind, so the log is never retried and later lines are
   * lost. With StopTrace set nothing reaches the log.
   */
  function DebuggerStep(s: LogState, text: string, lead: nat, cfg: LogConfig, stopTrace: bool, env: Answers): LogState
    requires lead <= |text|
  {
    if cfg.noLogs > 1 then s
    else if cfg.noLogs != 0 then s.(sent := s.sent + OutputString(text, cfg))
    else if !env.nameAllocated then
      s.(sent := s.sent + ErrorOutput("DebuggerOutput: failed to allocate memory for file name string",
                                      env.errorCode, env.systemMessage, cfg))
    else LogStep(s, text, lead, cfg, stopTrace, env)
  }

  /** A call past the no_logs gate and the file name: the first one outside StopTrace opens the log; StopTrace writes nothing. */
  function LogStep(s: LogState, text: string, lead: nat, cfg: LogConfig, stopTrace: bool, env: Answers): LogState
    requires lead <= |text| && cfg.noLogs == 0 && env.nameAllocated
  {
    if s.handle == Unopened && !stopTrace then FirstStep(s, text, lead, cfg, env)
    else if stopTrace then s
    else WriteStep(s, text)
  }

  /**
   * A call only appends to the log: the header and at most one line when it
   * opens the log, at most one sanitised line through a handle it already has.
   */
  lemma StepAppends(s: LogState, text: string, lead: nat, cfg: LogConfig, stopTrace: bool, env: Answers)
    requires lead <= |text|
    ensures var r := DebuggerStep(s, text, lead, cfg, stopTrace, env);
      |s.written| <= |r.written| <= |s.written| + 2 && r.written[..|s.written|] == s.written
      && (s.handle != Unopened ==> r.handle == s.handle && |r.written| <= |s.written| + 1)
      && (s.handle != Unopened ==> CleanLines(r.written[|s.written|..]))
  {
    if cfg.noLogs == 0 && env.nameAllocated && s.handle == Unopened && !stopTrace {
      var o := OpenStep(s, cfg, env);
      assert o.written[..|s.written|] == s.written;
      if env.opens {
        var r := WriteStep(o, text[lead..]);
        assert r.written[..|s.written|] == s.written;
      }
    }
  }

  /** One call to DebuggerOutput with what it prints and what Windows answers. */
  datatype Call = Call(text: string, lead: nat, cfg: LogConfig, stopTrace: bool, env: Answers)

  predicate WellFormedCalls(calls: seq<Call>)
  {
    forall i :: 0 <= i < |calls| ==> calls[i].lead <= |calls[i].text|
  }

  /** The output state after a run of DebuggerOutput calls. */
  function Run(s: LogState, calls: seq<Call>): LogState
    requires WellFormedCalls(calls)
    decreases |calls|
  {
    if calls == [] then s
    else
      var c := calls[0];
      Run(DebuggerStep(s, c.text, c.lead, c.cfg, c.stopTrace, c.env), calls[1..])
  }

  /** With no_logs above one, a run of calls changes nothing at all. */
  lemma {:induction false} SilentAboveOne(s: LogState, calls: seq<Call>)
    requires WellFormedCalls(calls)
    requires forall i :: 0 <= i < |calls| ==> calls[i].cfg.noLogs > 1
    ensures Run(s, calls) == s
    decreases |calls|
  {
    if calls != [] {
      SilentAboveOne(s, calls[1..]);
    }
  }

  /** The OutputString messages of a run in which no_logs redirects every call. */
  function Redirected(calls: seq<Call>): seq<Sent>
  {
    if calls == [] then [] else OutputString(calls[0].text, calls[0].cfg) + Redirected(calls[1..])
  }

  /** Each call's OutputString messages, appended one call after the other to `s.sent`. */
  function Forwarded(s: LogState, calls: seq<Call>): LogState
    decreases |calls|
  {
    if calls == [] then s
    else Forwarded(s.(sent := s.sent + OutputString(calls[0].text, calls[0].cfg)), calls[1..])
  }

  /** With no_logs one (or any other non-zero value up to one), a run of calls only forwards each line to OutputString. */
  lemma {:induction false} RedirectedToOutputString(s: LogState, calls: seq<Call>)
    requires WellFormedCalls(calls)
    requires forall i :: 0 <= i < |calls| ==> calls[i].cfg.noLogs != 0 && calls[i].cfg.noLogs <= 1
    ensures Run(s, calls) == Forwarded(s, calls)
    decreases |calls|
  {
    if calls != [] {
      StepRedirects(s, calls[0]);
      RedirectedToOutputString(DebuggerStep(s, calls[0].text, calls[0].lead, calls[0].cfg, calls[0].stopTrace, calls[0].env), calls[1..]);
    }
  }

  /** Forwarding leaves the log file and its handle alone and adds exactly the concatenated OutputString messages, in order. */
  lemma {:induction false} ForwardedSends(s: LogState, calls: seq<Call>)
    ensures Forwarded(s, calls).handle == s.handle && Forwarded(s, calls).written == s.written
    ensures Forwarded(s, calls).sent == s.sent + Redirected(calls)
    decreases |calls|
  {
    if calls != [] {
      var out := OutputString(calls[0].text, calls[0].cfg);
      var rest := Redirected(calls[1..]);
      ForwardedSends(s.(sent := s.sent + out), calls[1..]);
      AppendAssociates(s.sent, out, rest);
    }
  }

  /** One redirected call: only what OutputString sends is added. */
  lemma StepRedirects(s: LogState, c: Call)
    requires c.lead <= |c.text| && c.cfg.noLogs != 0 && c.cfg.noLogs <= 1
    ensures DebuggerStep(s, c.text, c.lead, c.cfg, c.stopTrace, c.env) == s.(sent := s.sent + OutputString(c.text, c.cfg))
  {
  }

  /** While StopTrace is set, nothing is written to the debugger log and its handle does not change. */
  lemma {:induction false} StopTraceWritesNothing(s: LogState, calls: seq<Call>)
    requires WellFormedCalls(calls)
    requires forall i :: 0 <= i < |calls| ==> calls[i].stopTrace
    ensures Run(s, calls).written == s.written && Run(s, calls).handle == s.handle
    decreases |calls|
  {
    if calls != [] {
      var c := calls[0];
      StopTraceWritesNothing(DebuggerStep(s, c.text, c.lead, c.cfg, c.stopTrace, c.env), calls[1..]);
    }
  }

  /** Once the log failed to open, every later line is lost. */
  lemma {:induction false} InvalidLogLosesLines(s: LogState, calls: seq<Call>)
    requires WellFormedCalls(calls)
    requires s.handle == Invalid
    ensures Run(s, calls).written == s.written && Run(s, calls).handle == Invalid
    decreases |calls|
  {
    if calls != [] {
      var c := calls[0];
      InvalidLogLosesLines(DebuggerStep(s, c.text, c.lead, c.cfg, c.stopTrace, c.env), calls[1..]);
    }
  }

  /** Every line written to an open log after its header is in line feed..tilde and fits DebuggerLine. */
  lemma {:induction false} LinesAfterHeaderPrintable(s: LogState, calls: seq<Call>)
    requires WellFormedCalls(calls)
    requires s.handle == Opened
    ensures var r := Run(s, calls);
      r.handle == Opened && |s.written| <= |r.written| && r.written[..|s.written|] == s.written
      && CleanLines(r.written[|s.written|..])
    decreases |calls|
  {
    if calls != [] {
      var c := calls[0];
      var s' := DebuggerStep(s, c.text, c.lead, c.cfg, c.stopTrace, c.env);
      StepAppends(s, c.text, c.lead, c.cfg, c.stopTrace, c.env);
      LinesAfterHeaderPrintable(s', calls[1..]);
      var r := Run(s', calls[1..]);
      assert r.written[..|s.written|] == s.written by {
        assert r.written[..|s'.written|][..|s.written|] == s'.written[..|s.written|];
      }
      assert r.written[|s.written|..|s'.written|] == s'.written[|s.written|..];
      CleanLinesJoin(r.written, |s.written|, |s'.written|);
    }
  }

  /** The state DebuggerOutput keeps between calls: the log handle, the DebuggerLine buffer, and what has been output. */
  class DebuggerLog {
    var handle: LogHandle
    var written: seq<string>
    var sent: seq<Sent>
    const line: array<char>

    ghost predicate Valid()
      reads this
    {
      line.Length == MaxPath
    }

    function State(): LogState
      reads this
    {
      LogState(handle, written, sent)
    }

    constructor ()
      ensures Valid() && fresh(line)
      ensures handle == Unopened && written == [] && sent == []
    {
      handle := Unopened;
      written := [];
      sent := [];
      line := new char[MaxPath](_ => '\0');
    }

    /** memset of DebuggerLine followed by a _TRUNCATE print of `t` into it. */
    method Print(t: string)
      requires Valid()
      modifies line
      ensures line[..] == LineBuffer(t)
    {
      var p := Truncate(t, LineMax);
      forall i | 0 <= i < line.Length {
        line[i] := if i < |p| then p[i] else '\0';
      }
      assert line[..] == LineBuffer(t);
    }

    /** The sanitising loop: walks DebuggerLine up to its NUL, turning every character outside line feed..tilde into '?'. */
    method Sanitize()
      requires '\0' in line[..]
      modifies line
      ensures line[..] == Sanitized(old(line[..]))
    {
      ghost var s0 := line[..];
      ghost var k := Find(s0, '\0');
      assert k < |s0|;
      var i := 0;
      while line[i] != '\0'
        invariant i <= k
        invariant forall j :: 0 <= j < |s0| ==> line[j] == if j < i && !Printable(s0[j]) then '?' else s0[j]
        decreases k - i
      {
        if line[i] < '\n' || line[i] > '~' {
          line[i] := '?';
        }
        i := i + 1;
      }
      assert i == k;
      assert line[..] == Sanitized(s0);
    }

    /** Opens the debugger log and writes its header, or leaves an invalid handle behind when CreateFile fails. */
    method OpenLog(cfg: LogConfig, env: Answers) returns (isOpen: bool)
      requires Valid() && handle == Unopened
      modifies this`handle, this`written, this`sent, line
      ensures Valid() && isOpen == env.opens
      ensures State() == OpenStep(old(State()), cfg, env)
      ensures !isOpen ==> unchanged(line)
    {
      if !env.opens {
        handle := Invalid;
        sent := sent + ErrorOutput(OpenFailedMessage(env.logPath), env.errorCode, env.systemMessage, cfg);
        return false;
      }
      handle := Opened;
      sent := sent + OutputString(OpenedMessage(env.logPath), cfg);
      Print(Header(env.timeText));
      written := written + [CString(line[..])];
      return true;
    }

    /** Prints `t` into DebuggerLine, sanitises it and writes it to the log; a write to an invalid handle is lost. */
    method WriteLine(t: string)
      requires Valid()
      modifies this`written, line
      ensures Valid() && line[..] == Sanitized(LineBuffer(t))
      ensures State() == WriteStep(old(State()), t)
    {
      Print(t);
      Sanitize();
      if handle == Opened {
        written := written + [CString(line[..])];
      }
    }

    /**
     * DebuggerOutput on the text its format and arguments print, `lead`
     * being the number of line feeds the format starts with.
     */
    method DebuggerOutput(text: string, lead: nat, cfg: LogConfig, stopTrace: bool, env: Answers)
      requires Valid() && LeadingNewlines(text, lead)
      modifies this`handle, this`written, this`sent, line
      ensures Valid()
      ensures State() == DebuggerStep(old(State()), text, lead, cfg, stopTrace, env)
      ensures var p := LinePrinted(old(handle), text, lead, cfg, stopTrace, env);
        line[..] == if p.Some? then Sanitized(LineBuffer(p.value)) else old(line[..])
    {
      if cfg.noLogs > 1 {
        return;
      } else if cfg.noLogs != 0 {
        sent := sent + OutputString(text, cfg);
        return;
      }
      if !env.nameAllocated {
        sent := sent + ErrorOutput("DebuggerOutput: failed to allocate memory for file name string",
                                   env.errorCode, env.systemMessage, cfg);
        return;
      }
      LogLine(text, lead, cfg, stopTrace, env);
    }

    /** The part of DebuggerOutput past the no_logs gate and the file name: open the log if need be, then write the line. */
    method LogLine(text: string, lead: nat, cfg: LogConfig, stopTrace: bool, env: Answers)
      requires Valid() && LeadingNewlines(text, lead) && cfg.noLogs == 0 && env.nameAllocated
      modifies this`handle, this`written, this`sent, line
      ensures Valid()
      ensures State() == LogStep(old(State()), text, lead, cfg, stopTrace, env)
      ensures var p := LinePrinted(old(handle), text, lead, cfg, stopTrace, env);
        line[..] == if p.Some? then Sanitized(LineBuffer(p.value)) else old(line[..])
    {
      if handle == Unopened && !stopTrace {
        FirstLine(text, lead, cfg, env);
      } else if !stopTrace {
        WriteLine(text);
      }
    }

    /** The first line outside StopTrace: opens the log, then writes the line without the format's leading line feeds. */
    method FirstLine(text: string, lead: nat, cfg: LogConfig, env: Answers)
      requires Valid() && LeadingNewlines(text, lead) && cfg.noLogs == 0 && env.nameAllocated && handle == Unopened
      modifies this`handle, this`written, this`sent, line
      ensures Valid()
      ensures State() == FirstStep(old(State()), text, lead, cfg, env)
      ensures line[..] == if env.opens then Sanitized(LineBuffer(text[lead..])) else old(line[..])
    {
      var isOpen := OpenLog(cfg, env);
      if isOpen {
        WriteLine(text[lead..]);
      }
    }
  }
}
