/**
 * The option rewriting of CAPE/YaraHarness.c. A YARA rule can carry a
 * `cape_options` meta string such as `bp0=$code+0x10,dump`; when the rule
 * matches, each comma-separated option is handed to the configuration
 * parser, and an option naming a matched string (`key=$name+delta`) is first
 * rewritten into `key=0x<address>` with the match offset filled in. The
 * module also models the scan-length clamp of YaraScan and the RIP-relative
 * address decoding of the internal rule's callback.
 *
 * The YARA library itself is not modelled: a rule match is given as the
 * sequence of (string identifier, match offset) pairs the library's
 * iterators would visit, and GetAccessibleSize and ReverseScanForNonZero are
 * oracle parameters.
 */
module YaraHarness {
  import opened Basics

  // ---- strtoul(s, NULL, 0) ----

  /** Whether `s` opens with a 0x or 0X prefix followed by a hex digit. */
  predicate HexPrefixed(s: string)
  {
    |s| > 2 && s[0] == '0' && (s[1] == 'x' || s[1] == 'X') && IsDigit(s[2], 16)
  }

  /**
   * strtoul with base 0: hexadecimal after 0x, octal after a leading 0,
   * decimal otherwise; the digits stop at the first non-digit, and a value
   * above the largest DWORD saturates to it.
   */
  function StrToUL(s: string): (v: Dword)
  {
    var base := if HexPrefixed(s) then 16 else if |s| > 0 && s[0] == '0' then 8 else 10;
    var digits := if base == 16 then s[2..] else s;
    var raw := ValueOf(LeadingDigits(digits, base), base);
    if raw < DwordMax then raw else DwordMax
  }

  lemma {:induction false} DecimalLeadsWithNonZero(n: nat)
    requires n > 0
    ensures Decimal(n)[0] != '0'
  {
    if n >= 10 {
      DecimalLeadsWithNonZero(n / 10);
      assert Decimal(n)[0] == Decimal(n / 10)[0];
    }
  }

  /** A string of digits is its own longest digit prefix. */
  lemma {:induction false} AllDigitsLead(s: string, base: nat)
    requires forall i :: 0 <= i < |s| ==> IsDigit(s[i], base)
    ensures LeadingDigits(s, base) == s
    decreases |s|
  {
    if s != [] {
      AllDigitsLead(s[1..], base);
    }
  }

  /** strtoul reads a %u rendering back. */
  lemma StrToULDecimal(n: Dword)
    ensures StrToUL(Decimal(n)) == n
  {
    var s := Decimal(n);
    AllDigitsLead(s, 10);
    DecimalRoundTrip(n);
    if n > 0 {
      DecimalLeadsWithNonZero(n);
    } else {
      assert s == "0";
      assert LeadingDigits(s, 8) == s;
      assert s[..|s| - 1] == [];
      assert ValueOf(s, 8) == 0;
    }
  }

  // ---- ParseOptionLine ----

  /** The length of the name part of an option value: the text before the first '+', else before the first '-'. */
  function NameLength(value: string): (n: nat)
    ensures n <= |value|
  {
    if Find(value, '+') < |value| then Find(value, '+') else Find(value, '-')
  }

  /**
   * The offset an option value asks for: +n after the first '+'; with no
   * '+', -n after the first '-'; 0 with neither. n is converted to a 32-bit
   * `int` as the C assignment does.
   */
  function Delta(value: string): (d: int)
    ensures -0x8000_0000 <= d < 0x8000_0000
  {
    var plus := Find(value, '+');
    var q := if plus < |value| then plus else Find(value, '-');
    if q == |value| then 0
    else
      var n := ToInt32(StrToUL(value[q + 1..]));
      if q == plus then n else Neg32(n)
  }

  /** The option key: the line up to its first '='. */
  function Key(line: string): string
  {
    line[..Find(line, '=')]
  }

  /** The option value: the line after its first '='. */
  function Value(line: string): string
    requires Find(line, '=') < |line|
  {
    line[Find(line, '=') + 1..]
  }

  /**
   * `(PUCHAR)target + delta`: a pointer moved by a 32-bit signed offset,
   * wrapping at either end of the 64-bit address space.
   */
  function Moved(target: Pointer, delta: int): (a: Pointer)
    requires -0x8000_0000 <= delta < 0x8000_0000
    ensures 0 <= target + delta < Word64 ==> a == target + delta
    ensures target + delta < 0 ==> a == target + delta + Word64
    ensures target + delta >= Word64 ==> a == target + delta - Word64
  {
    var sum := target + delta;
    if sum < 0 then sum + Word64 else if sum >= Word64 then sum - Word64 else sum
  }

  /** A rewritten option: its key and the address its `$name+delta` value resolves to. */
  datatype Rewrite = Rewrite(key: string, address: Pointer)

  /** The line ParseOptionLine prints into NewLine: the key, "=0x" and the address as %p. */
  function NewLine(rw: Rewrite): (s: string)
    ensures |s| == |rw.key| + 19
  {
    rw.key + "=0x" + PointerText(rw.address)
  }

  /** The parts of an option line that do not depend on the match: its key, the name part of its value and the delta. */
  datatype OptionParts = OptionParts(key: string, name: string, delta: int)

  /**
   * The split ParseOptionLine makes before comparing names: a line with a
   * '$' and an '=' splits at its first '=' into key and value, and the value
   * into its name part and delta; a line missing either gives None.
   */
  function Parts(l: string): (r: Option<OptionParts>)
    ensures r.Some? <==> Find(l, '$') < |l| && Find(l, '=') < |l|
    ensures r.Some? ==> -0x8000_0000 <= r.value.delta < 0x8000_0000
  {
    if Find(l, '$') == |l| || Find(l, '=') == |l| then None
    else
      var value := Value(l);
      Some(OptionParts(Key(l), value[..NameLength(value)], Delta(value)))
  }

  /**
   * ParseOptionLine: for a line holding a '$' and an '=' whose value's name
   * part starts the matched string's identifier, the rewrite of its key to
   * the target moved by the delta; None otherwise. strncmp over the name
   * length is zero exactly when the identifier begins with the name, since
   * the name holds no terminator; the '=' the source overwrites is put back,
   * so the line itself is left as it was.
   */
  function ParseOptionLine(line: Option<string>, identifier: Option<string>, target: Pointer): (r: Option<Rewrite>)
    ensures r.Some? <==>
      line.Some? && identifier.Some? && Find(line.value, '$') < |line.value| && Find(line.value, '=') < |line.value|
      && IsPrefix(Value(line.value)[..NameLength(Value(line.value))], identifier.value)
    ensures r.Some? ==> r.value.key == Key(line.value)
  {
    if line.None? || identifier.None? then None
    else
      var parts := Parts(line.value);
      if parts.None? || !IsPrefix(parts.value.name, identifier.value) then None
      else Some(Rewrite(parts.value.key, Moved(target, parts.value.delta)))
  }

  /** A rewritten line starts with the key and "=0x", and its last 16 hex digits read back as the address. */
  lemma NewLineReadsBack(rw: Rewrite)
    ensures var s := NewLine(rw);
      s[..|rw.key|] == rw.key && s[|rw.key|..|rw.key| + 3] == "=0x"
      && ValueOf(s[|rw.key| + 3..], 16) == rw.address
  {
    var s := NewLine(rw);
    PointerTextRoundTrip(rw.address);
    assert s[|rw.key| + 3..] == PointerText(rw.address);
    assert s[..|rw.key|] == rw.key;
  }

  /** A line whose parts are known is rewritten by them when its name starts the identifier. */
  lemma ParseFromParts(l: string, identifier: string, target: Pointer, p: OptionParts)
    requires Parts(l) == Some(p) && IsPrefix(p.name, identifier)
    requires -0x8000_0000 <= p.delta < 0x8000_0000
    ensures ParseOptionLine(Some(l), Some(identifier), target) == Some(Rewrite(p.key, Moved(target, p.delta)))
  {
  }

  /** A line `key=value` with a '$' in the key and no '=' in it splits back into that key and value. */
  lemma SplitOption(key: string, value: string)
    requires '$' in key && '=' !in key
    ensures var line := key + "=" + value;
      Find(line, '$') < |line| && Find(line, '=') == |key| && Key(line) == key && Value(line) == value
      && Parts(line) == Some(OptionParts(key, value[..NameLength(value)], Delta(value)))
  {
    var line := key + "=" + value;
    FindAfter(key, '=', value);
    assert line[..|key|] == key;
    assert line[|key| + 1..] == value;
    var i :| 0 <= i < |key| && key[i] == '$';
    assert line[i] == '$';
    assert line[|key|] == '=';
  }

  /** A `key=value` line whose value has a known name part and delta is rewritten by them. */
  lemma OptionWithValue(key: string, value: string, name: string, delta: int, identifier: string, target: Pointer)
    requires '$' in key && '=' !in key
    requires NameLength(value) == |name| && value[..|name|] == name && Delta(value) == delta
    requires IsPrefix(name, identifier)
    ensures ParseOptionLine(Some(key + "=" + value), Some(identifier), target) == Some(Rewrite(key, Moved(target, delta)))
  {
    SplitOption(key, value);
    ParseFromParts(key + "=" + value, identifier, target, OptionParts(key, name, delta));
  }

  /** The value `name+digits` has name part `name` and delta the number strtoul reads from the digits. */
  lemma PlusValue(name: string, digits: string)
    requires '+' !in name && StrToUL(digits) < 0x8000_0000
    ensures var value := name + "+" + digits;
      Find(value, '+') == |name|
      && NameLength(value) == |name| && value[..|name|] == name && Delta(value) == StrToUL(digits)
  {
    var value := name + "+" + digits;
    FindAfter(name, '+', digits);
    assert value[..|name|] == name;
    assert value[|name| + 1..] == digits;
  }

  /** The value `name-digits`, with no '+' in it, has name part `name` and delta minus that number. */
  lemma MinusValue(name: string, digits: string)
    requires '+' !in name && '-' !in name && '+' !in digits && StrToUL(digits) < 0x8000_0000
    ensures var value := name + "-" + digits;
      Find(value, '+') == |value| && Find(value, '-') == |name|
      && NameLength(value) == |name| && value[..|name|] == name && Delta(value) == -(StrToUL(digits) as int)
  {
    var value := name + "-" + digits;
    FindAfter(name, '-', digits);
    assert value[..|name|] == name;
    assert value[|name| + 1..] == digits;
    assert '+' !in value by {
      forall i | 0 <= i < |value|
        ensures value[i] != '+'
      {
        if i > |name| {
          assert value[i] == digits[i - |name| - 1];
        }
      }
    }
    FindAbsent(value, '+');
  }

  /**
   * An option written as `key=name+digits`, with a '$' in the key and a name
   * that starts the identifier, is rewritten to the target moved forward by
   * the number strtoul reads from the digits (for a %u rendering, the number
   * itself: StrToULDecimal).
   */
  lemma PlusOptionRewrites(key: string, name: string, digits: string, identifier: string, target: Pointer)
    requires '$' in key && '=' !in key
    requires '+' !in name && '-' !in name && IsPrefix(name, identifier)
    requires StrToUL(digits) < 0x8000_0000
    ensures ParseOptionLine(Some(key + "=" + (name + "+" + digits)), Some(identifier), target)
      == Some(Rewrite(key, Moved(target, StrToUL(digits))))
  {
    PlusValue(name, digits);
    OptionWithValue(key, name + "+" + digits, name, StrToUL(digits), identifier, target);
  }

  /** With a '-' and no '+', the target moves back by that number. */
  lemma MinusOptionRewrites(key: string, name: string, digits: string, identifier: string, target: Pointer)
    requires '$' in key && '=' !in key
    requires '+' !in name && '-' !in name && IsPrefix(name, identifier)
    requires '+' !in digits && StrToUL(digits) < 0x8000_0000
    ensures ParseOptionLine(Some(key + "=" + (name + "-" + digits)), Some(identifier), target)
      == Some(Rewrite(key, Moved(target, -(StrToUL(digits) as int))))
  {
    var value := name + "-" + digits;
    MinusValue(name, digits);
    OptionWithValue(key, value, name, Delta(value), identifier, target);
    assert Moved(target, Delta(value)) == Moved(target, -(StrToUL(digits) as int));
  }

  // ---- YaraCallback ----

  /** One match the YARA iterators visit: the matched string's identifier and the match offset. */
  datatype Match = Match(identifier: string, offset: Pointer)

  datatype CallbackMessage = RuleMatching | RuleNotMatching | ImportModule | OtherMessage

  const CallbackContinue: int := 0
  const CallbackError: int := 2

  /**
   * The comma-separated options the callback visits, in order. The walk stops
   * at the end of the string, so a trailing empty option after a final comma
   * is not visited.
   */
  function Segments(s: string): seq<string>
    decreases |s|
  {
    if s == [] then []
    else
      var k := Find(s, ',');
      if k == |s| then [s] else [s[..k]] + Segments(s[k + 1..])
  }

  /** No visited option holds a comma: each is cut at the next one. */
  lemma {:induction false} SegmentsHaveNoComma(s: string)
    ensures forall i, k :: 0 <= i < |Segments(s)| && 0 <= k < |Segments(s)[i]| ==> Segments(s)[i][k] != ','
    decreases |s|
  {
    if s != [] {
      var k := Find(s, ',');
      if k < |s| {
        SegmentsHaveNoComma(s[k + 1..]);
        var segs := Segments(s);
        assert segs == [s[..k]] + Segments(s[k + 1..]);
        forall i, j | 0 <= i < |segs| && 0 <= j < |segs[i]|
          ensures segs[i][j] != ','
        {
          if i > 0 {
            assert segs[i] == Segments(s[k + 1..])[i - 1];
          }
        }
      }
    }
  }

  function Join(segs: seq<string>): string
  {
    if segs == [] then [] else if |segs| == 1 then segs[0] else segs[0] + "," + Join(segs[1..])
  }

  lemma SplitAround<T>(s: seq<T>, k: nat)
    requires k < |s|
    ensures s == s[..k] + [s[k]] + s[k + 1..]
  {
  }

  lemma JoinCons(seg: string, segs: seq<string>)
    requires segs != []
    ensures Join([seg] + segs) == seg + "," + Join(segs)
  {
    assert ([seg] + segs)[1..] == segs;
  }

  /** The options of a string with a comma at `k`: the text before it, then the options after it. */
  lemma SegmentsAtComma(s: string, k: nat)
    requires s != [] && k == Find(s, ',') && k < |s|
    ensures Segments(s) == [s[..k]] + Segments(s[k + 1..])
  {
  }

  /** Joining the visited options with commas gives the meta string back, unless it ends in a comma. */
  lemma {:induction false} JoinSegments(s: string)
    requires s == [] || s[|s| - 1] != ','
    ensures Join(Segments(s)) == s
    decreases |s|
  {
    if s != [] {
      var k := Find(s, ',');
      if k < |s| {
        var rest := s[k + 1..];
        assert rest != [] && rest[|rest| - 1] == s[|s| - 1];
        JoinSegments(rest);
        SegmentsAtComma(s, k);
        JoinCons(s[..k], Segments(rest));
        SplitAround(s, k);
      } else {
        assert Segments(s) == [s];
      }
    }
  }

  predicate Parses(seg: string, m: Match)
  {
    ParseOptionLine(Some(seg), Some(m.identifier), m.offset).Some?
  }

  /** The rewritten lines one option produces, one per match it names, in match order. */
  function NewLines(seg: string, ms: seq<Match>): seq<string>
  {
    if ms == [] then []
    else
      var m := ms[|ms| - 1];
      var r := ParseOptionLine(Some(seg), Some(m.identifier), m.offset);
      NewLines(seg, ms[..|ms| - 1]) + (if r.Some? then [NewLine(r.value)] else [])
  }

  /** The parse_config_line calls for the visited options: each option's rewritten lines, then the option itself. */
  function Calls(segs: seq<string>, ms: seq<Match>): seq<string>
  {
    if segs == [] then [] else Calls(segs[..|segs| - 1], ms) + NewLines(segs[|segs| - 1], ms) + [segs[|segs| - 1]]
  }

  /** Whether `p` holds of `x` and some element of `ys`, tried from the last element back. */
  predicate SomeWith<X, Y>(x: X, ys: seq<Y>, p: (X, Y) -> bool)
  {
    ys != [] && (p(x, ys[|ys| - 1]) || SomeWith(x, ys[..|ys| - 1], p))
  }

  /** Whether `p` holds of some element of `xs` and some element of `ys`. */
  predicate AnyWith<X, Y>(xs: seq<X>, ys: seq<Y>, p: (X, Y) -> bool)
  {
    xs != [] && (SomeWith(xs[|xs| - 1], ys, p) || AnyWith(xs[..|xs| - 1], ys, p))
  }

  lemma {:induction false} SomeWithExists<X, Y>(x: X, ys: seq<Y>, p: (X, Y) -> bool)
    ensures SomeWith(x, ys, p) <==> exists j :: 0 <= j < |ys| && p(x, ys[j])
  {
    if ys != [] {
      var init := ys[..|ys| - 1];
      SomeWithExists(x, init, p);
      if exists j :: 0 <= j < |ys| && p(x, ys[j]) {
        var j :| 0 <= j < |ys| && p(x, ys[j]);
        if j < |init| {
          assert init[j] == ys[j];
        }
      }
      if SomeWith(x, init, p) {
        var j :| 0 <= j < |init| && p(x, init[j]);
        assert ys[j] == init[j];
      }
    }
  }

  lemma {:induction false} AnyWithExists<X, Y>(xs: seq<X>, ys: seq<Y>, p: (X, Y) -> bool)
    ensures AnyWith(xs, ys, p) <==> exists i, j :: 0 <= i < |xs| && 0 <= j < |ys| && p(xs[i], ys[j])
  {
    if xs != [] {
      var init := xs[..|xs| - 1];
      AnyWithExists(init, ys, p);
      SomeWithExists(xs[|xs| - 1], ys, p);
      if exists i, j :: 0 <= i < |xs| && 0 <= j < |ys| && p(xs[i], ys[j]) {
        var i, j :| 0 <= i < |xs| && 0 <= j < |ys| && p(xs[i], ys[j]);
        if i < |init| {
          assert init[i] == xs[i];
        }
      }
      if AnyWith(init, ys, p) {
        var i, j :| 0 <= i < |init| && 0 <= j < |ys| && p(init[i], ys[j]);
        assert xs[i] == init[i];
      }
    }
  }

  /** Whether the option is rewritten for some match. */
  predicate Rewritten(seg: string, ms: seq<Match>)
  {
    SomeWith(seg, ms, Parses)
  }

  /** Whether some option is rewritten for some match. */
  predicate AnyParses(segs: seq<string>, ms: seq<Match>)
  {
    AnyWith(segs, ms, Parses)
  }

  /** An option is rewritten for some match exactly when it produces rewritten lines. */
  lemma {:induction false} RewrittenLines(seg: string, ms: seq<Match>)
    ensures Rewritten(seg, ms) <==> NewLines(seg, ms) != []
  {
    if ms != [] {
      RewrittenLines(seg, ms[..|ms| - 1]);
    }
  }

  /** Some rewrite succeeds exactly when the parser is called more often than there are options. */
  lemma {:induction false} AnyParsesCalls(segs: seq<string>, ms: seq<Match>)
    ensures |Calls(segs, ms)| >= |segs|
    ensures AnyParses(segs, ms) <==> |Calls(segs, ms)| > |segs|
  {
    if segs != [] {
      AnyParsesCalls(segs[..|segs| - 1], ms);
      RewrittenLines(segs[|segs| - 1], ms);
    }
  }

  /** SetInitialBreakpoints is due exactly when some option is rewritten for some match. */
  lemma AnyParsesExists(segs: seq<string>, ms: seq<Match>)
    ensures AnyParses(segs, ms) <==> exists i, j :: 0 <= i < |segs| && 0 <= j < |ms| && Parses(segs[i], ms[j])
  {
    AnyWithExists(segs, ms, Parses);
  }

  predicate AnyDump(segs: seq<string>)
  {
    exists i :: 0 <= i < |segs| && EqualsIgnoreCase("dump", segs[i])
  }

  /** Every option is passed to the configuration parser, in order, after the rewritten lines it produced. */
  lemma {:induction false} CallsEndWithOptions(segs: seq<string>, ms: seq<Match>)
    ensures |Calls(segs, ms)| >= |segs|
    ensures segs != [] ==> Calls(segs, ms)[|Calls(segs, ms)| - 1] == segs[|segs| - 1]
  {
    if segs != [] {
      CallsEndWithOptions(segs[..|segs| - 1], ms);
    }
  }

  /** The meta string in place: the option walk over the characters before its terminator. */
  predicate NoTerminator(a: array<char>)
    reads a
  {
    forall i :: 0 <= i < a.Length ==> a[i] != '\0'
  }

  /** Find is the first `c`, or the length when there is none. */
  lemma FindIs(t: string, c: char, k: nat)
    requires k <= |t| && (forall i :: 0 <= i < k ==> t[i] != c) && (k < |t| ==> t[k] == c)
    ensures Find(t, c) == k
  {
  }

  /** One option's step: the remaining options are this one and those after its comma. */
  lemma SegmentStep(s: string, start: nat, p: nat)
    requires start < |s| && start <= p <= |s|
    requires forall i :: start <= i < p ==> s[i] != ','
    requires p < |s| ==> s[p] == ','
    ensures p < |s| ==> Segments(s[start..]) == [s[start..p]] + Segments(s[p + 1..])
    ensures p == |s| ==> Segments(s[start..]) == [s[start..p]]
  {
    var t := s[start..];
    var k := p - start;
    forall i | 0 <= i < k
      ensures t[i] != ','
    {
      assert t[i] == s[start + i];
    }
    if p < |s| {
      assert t[k] == s[p];
    }
    FindIs(t, ',', k);
    assert t[..k] == s[start..p];
    if p < |s| {
      assert t[k + 1..] == s[p + 1..];
    } else {
      assert t == s[start..p];
    }
  }

  /** The walk's account of the options stays exact across one option. */
  lemma WalkStep(s: string, start: nat, p: nat, visited: seq<string>, seg: string)
    requires start < |s| && start <= p <= |s| && seg == s[start..p]
    requires forall i :: start <= i < p ==> s[i] != ','
    requires p < |s| ==> s[p] == ','
    requires Segments(s) == visited + Segments(s[start..])
    ensures var next := if p < |s| then p + 1 else p;
      Segments(s) == (visited + [seg]) + Segments(s[next..])
  {
    SegmentStep(s, start, p);
    if p < |s| {
      AppendAssociates(visited, [seg], Segments(s[p + 1..]));
    } else {
      assert s[p..] == [];
      assert visited + [seg] + [] == visited + [seg];
    }
  }

  /** Visiting one more option adds its calls, and its rewrites and "dump" to the two flags. */
  lemma VisitStep(segs: seq<string>, seg: string, ms: seq<Match>)
    ensures Calls(segs + [seg], ms) == Calls(segs, ms) + NewLines(seg, ms) + [seg]
    ensures AnyDump(segs + [seg]) == (AnyDump(segs) || EqualsIgnoreCase("dump", seg))
  {
    assert (segs + [seg])[..|segs|] == segs;
    AnyDumpAppend(segs, seg);
  }

  lemma AnyDumpAppend(segs: seq<string>, seg: string)
    ensures AnyDump(segs + [seg]) == (AnyDump(segs) || EqualsIgnoreCase("dump", seg))
  {
    var all := segs + [seg];
    assert all[|segs|] == seg;
    if AnyDump(segs) {
      var i :| 0 <= i < |segs| && EqualsIgnoreCase("dump", segs[i]);
      assert all[i] == segs[i];
    }
  }

  /** strchr(OptionLine, ','): the index of the next comma at or after `start`, or the length. */
  method FindComma(options: array<char>, start: nat) returns (p: nat)
    requires start <= options.Length
    ensures start <= p <= options.Length
    ensures forall i :: start <= i < p ==> options[i] != ','
    ensures p < options.Length ==> options[p] == ','
  {
    p := start;
    while p < options.Length && options[p] != ','
      invariant start <= p <= options.Length
      invariant forall i :: start <= i < p ==> options[i] != ','
    {
      p := p + 1;
    }
  }

  lemma NewLinesStep(seg: string, ms: seq<Match>, j: nat)
    requires j < |ms|
    ensures var r := ParseOptionLine(Some(seg), Some(ms[j].identifier), ms[j].offset);
      NewLines(seg, ms[..j + 1]) == NewLines(seg, ms[..j]) + (if r.Some? then [NewLine(r.value)] else [])
  {
    assert ms[..j + 1][..j] == ms[..j];
  }

  /** The inner match loop for one option: its rewritten lines, and whether any rewrite succeeded. */
  method RewriteOption(seg: string, ms: seq<Match>) returns (lines: seq<string>, parsed: bool)
    ensures lines == NewLines(seg, ms)
    ensures parsed == (lines != [])
  {
    lines, parsed := [], false;
    for j := 0 to |ms|
      invariant lines == NewLines(seg, ms[..j])
      invariant parsed == (lines != [])
    {
      NewLinesStep(seg, ms, j);
      var r := ParseOptionLine(Some(seg), Some(ms[j].identifier), ms[j].offset);
      if r.Some? {
        lines := lines + [NewLine(r.value)];
        parsed := true;
      }
    }
    assert ms[..|ms|] == ms;
  }

  /**
   * One option of the walk: the text from `start` to the next comma, or to
   * the end, is cut off by writing over the comma, rewritten for every match
   * and compared with "dump", and the comma is then put back.
   */
  method VisitOption(options: array<char>, start: nat, ms: seq<Match>)
    returns (p: nat, seg: string, lines: seq<string>, parsed: bool, dump: bool)
    requires start < options.Length
    modifies options
    ensures options[..] == old(options[..])
    ensures start <= p <= options.Length && seg == options[start..p]
    ensures forall i :: start <= i < p ==> options[i] != ','
    ensures p < options.Length ==> options[p] == ','
    ensures lines == NewLines(seg, ms) && parsed == (lines != [])
    ensures dump == EqualsIgnoreCase("dump", seg)
  {
    p := FindComma(options, start);
    if p < options.Length {
      options[p] := '\0';
    }
    seg := options[start..p];
    lines, parsed := RewriteOption(seg, ms);
    dump := EqualsIgnoreCase("dump", seg);
    if p < options.Length {
      options[p] := ',';
    }
    assert options[..] == old(options[..]);
  }

  /**
   * The walk over a `cape_options` string: the parse_config_line calls it
   * makes, whether some rewrite succeeded (exactly when there were more calls
   * than options) and whether some option is "dump".
   */
  method WalkOptions(options: array<char>, ms: seq<Match>)
    returns (calls: seq<string>, setBreakpoints: bool, dumpRegion: bool)
    requires NoTerminator(options)
    modifies options
    ensures options[..] == old(options[..])
    ensures calls == Calls(Segments(old(options[..])), ms)
    ensures setBreakpoints == (|calls| > |Segments(old(options[..]))|)
    ensures dumpRegion == AnyDump(Segments(old(options[..])))
  {
    calls, setBreakpoints, dumpRegion := [], false, false;
    ghost var s := options[..];
    ghost var visited: seq<string> := [];
    var start := 0;
    while start < options.Length
      invariant 0 <= start <= options.Length
      invariant options[..] == s
      invariant Segments(s) == visited + Segments(s[start..])
      invariant calls == Calls(visited, ms)
      invariant |calls| >= |visited| && setBreakpoints == (|calls| > |visited|)
      invariant dumpRegion == AnyDump(visited)
    {
      var p, seg, lines, parsed, dump := VisitOption(options, start, ms);
      assert seg == s[start..p];
      WalkStep(s, start, p, visited, seg);
      VisitStep(visited, seg, ms);
      calls := calls + lines + [seg];
      setBreakpoints := setBreakpoints || parsed;
      dumpRegion := dumpRegion || dump;
      visited := visited + [seg];
      start := if p < options.Length then p + 1 else p;
    }
    assert s[start..] == [];
    assert visited + Segments(s[start..]) == visited;
  }

  // ---- several metas ----

  /** A rule meta as YaraCallback sees it: its name, whether it holds a string, and that string in place. */
  datatype Meta = Meta(identifier: string, isString: bool, text: array<char>)

  /** The metas the callback walks: string metas named `cape_options`. */
  predicate IsCapeOptions(m: Meta)
  {
    m.isString && m.identifier == "cape_options"
  }

  /** The `cape_options` strings of a rule's metas, in meta order. */
  function CapeOptions(metas: seq<Meta>): seq<string>
    reads set m | m in metas :: m.text
  {
    if metas == [] then []
    else
      var last := metas[|metas| - 1];
      CapeOptions(metas[..|metas| - 1]) + (if IsCapeOptions(last) then [last.text[..]] else [])
  }

  /** The options of several `cape_options` strings, one string after the other. */
  function MetaOptions(texts: seq<string>): seq<string>
  {
    if texts == [] then [] else MetaOptions(texts[..|texts| - 1]) + Segments(texts[|texts| - 1])
  }

  /** The parser calls over two runs of options are the calls over the first, then those over the second. */
  lemma {:induction false} CallsAppend(a: seq<string>, b: seq<string>, ms: seq<Match>)
    ensures Calls(a + b, ms) == Calls(a, ms) + Calls(b, ms)
  {
    if b != [] {
      var init := b[..|b| - 1];
      assert (a + b)[..|a + b| - 1] == a + init;
      assert (a + b)[|a + b| - 1] == b[|b| - 1];
      CallsAppend(a, init, ms);
    } else {
      assert a + b == a;
    }
  }

  /** Some option of two runs is rewritten exactly when one of the runs has one. */
  lemma AnyParsesAppend(a: seq<string>, b: seq<string>, ms: seq<Match>)
    ensures AnyParses(a + b, ms) == (AnyParses(a, ms) || AnyParses(b, ms))
  {
    AnyParsesExists(a + b, ms);
    AnyParsesExists(a, ms);
    AnyParsesExists(b, ms);
    var ab := a + b;
    if AnyParses(a, ms) {
      var i, j :| 0 <= i < |a| && 0 <= j < |ms| && Parses(a[i], ms[j]);
      assert ab[i] == a[i];
    }
    if AnyParses(b, ms) {
      var i, j :| 0 <= i < |b| && 0 <= j < |ms| && Parses(b[i], ms[j]);
      assert ab[|a| + i] == b[i];
    }
    if AnyParses(ab, ms) {
      var i, j :| 0 <= i < |ab| && 0 <= j < |ms| && Parses(ab[i], ms[j]);
      if i < |a| {
        assert ab[i] == a[i];
      } else {
        assert ab[i] == b[i - |a|];
      }
    }
  }

  /** Some option of two runs is "dump" exactly when one of the runs has one. */
  lemma AnyDumpJoin(a: seq<string>, b: seq<string>)
    ensures AnyDump(a + b) == (AnyDump(a) || AnyDump(b))
  {
    var ab := a + b;
    if AnyDump(a) {
      var i :| 0 <= i < |a| && EqualsIgnoreCase("dump", a[i]);
      assert ab[i] == a[i];
    }
    if AnyDump(b) {
      var i :| 0 <= i < |b| && EqualsIgnoreCase("dump", b[i]);
      assert ab[|a| + i] == b[i];
    }
    if AnyDump(ab) {
      var i :| 0 <= i < |ab| && EqualsIgnoreCase("dump", ab[i]);
      if i >= |a| {
        assert ab[i] == b[i - |a|];
      }
    }
  }

  /**
   * Walking several `cape_options` strings is walking each in turn: the
   * parser calls are those of the earlier strings, then those of the last.
   */
  lemma MetaWalkCalls(texts: seq<string>, ms: seq<Match>)
    requires texts != []
    ensures Calls(MetaOptions(texts), ms)
      == Calls(MetaOptions(texts[..|texts| - 1]), ms) + Calls(Segments(texts[|texts| - 1]), ms)
  {
    CallsAppend(MetaOptions(texts[..|texts| - 1]), Segments(texts[|texts| - 1]), ms);
  }

  /** Whether `p` holds of some element of `xs`, split off the last element. */
  lemma SomeElementStep<T>(xs: seq<T>, init: seq<T>, p: T -> bool)
    requires xs != [] && init == xs[..|xs| - 1]
    ensures (exists k :: 0 <= k < |xs| && p(xs[k]))
      <==> (exists k :: 0 <= k < |init| && p(init[k])) || p(xs[|xs| - 1])
  {
    if exists k :: 0 <= k < |xs| && p(xs[k]) {
      var k :| 0 <= k < |xs| && p(xs[k]);
      if k < |init| {
        assert init[k] == xs[k];
      }
    }
  }

  /** Over several `cape_options` strings, SetInitialBreakpoints is due when it is due for one of them. */
  lemma {:induction false} MetaParsesIsOr(texts: seq<string>, ms: seq<Match>)
    ensures AnyParses(MetaOptions(texts), ms) <==> exists k :: 0 <= k < |texts| && AnyParses(Segments(texts[k]), ms)
  {
    if texts != [] {
      var init := texts[..|texts| - 1];
      MetaParsesIsOr(init, ms);
      assert MetaOptions(texts) == MetaOptions(init) + Segments(texts[|texts| - 1]);
      AnyParsesAppend(MetaOptions(init), Segments(texts[|texts| - 1]), ms);
      SomeElementStep(texts, init, t => AnyParses(Segments(t), ms));
    }
  }

  /** Over several `cape_options` strings, DumpRegion is due when one of them asks for it. */
  lemma {:induction false} MetaDumpIsOr(texts: seq<string>)
    ensures AnyDump(MetaOptions(texts)) <==> exists k :: 0 <= k < |texts| && AnyDump(Segments(texts[k]))
  {
    if texts != [] {
      var init := texts[..|texts| - 1];
      MetaDumpIsOr(init);
      assert MetaOptions(texts) == MetaOptions(init) + Segments(texts[|texts| - 1]);
      AnyDumpJoin(MetaOptions(init), Segments(texts[|texts| - 1]));
      SomeElementStep(texts, init, t => AnyDump(Segments(t)));
    }
  }

  /**
   * YaraCallback. A non-matching rule and a module import continue the scan
   * with no effect; any other message but a match is an error. For a match,
   * the rule's metas are walked in order, and each string meta named
   * `cape_options` has its options visited in order: each is cut at its comma
   * (the comma is written over and put back), rewritten for every match it
   * names, and passed on. Other metas are skipped. SetInitialBreakpoints is
   * due exactly when some rewrite succeeded, DumpRegion exactly when some
   * option is "dump" in any case, over all those metas; each runs at most
   * once, after the walk.
   */
  method YaraCallback(message: CallbackMessage, metas: seq<Meta>, ms: seq<Match>)
    returns (verdict: int, calls: seq<string>, setBreakpoints: bool, dumpRegion: bool)
    requires forall m | m in metas && IsCapeOptions(m) :: NoTerminator(m.text)
    modifies set m | m in metas :: m.text
    ensures forall m | m in metas :: m.text[..] == old(m.text[..])
    ensures message.RuleMatching? ==>
      verdict == CallbackContinue
      && calls == Calls(MetaOptions(old(CapeOptions(metas))), ms)
      && setBreakpoints == AnyParses(MetaOptions(old(CapeOptions(metas))), ms)
      && dumpRegion == AnyDump(MetaOptions(old(CapeOptions(metas))))
    ensures !message.RuleMatching? ==>
      calls == [] && !setBreakpoints && !dumpRegion
      && verdict == if message.OtherMessage? then CallbackError else CallbackContinue
  {
    match message {
      case RuleNotMatching =>
        return CallbackContinue, [], false, false;
      case ImportModule =>
        return CallbackContinue, [], false, false;
      case OtherMessage =>
        return CallbackError, [], false, false;
      case RuleMatching =>
        calls, setBreakpoints, dumpRegion := [], false, false;
        ghost var visited: seq<string> := [];
        var i := 0;
        while i < |metas|
          invariant 0 <= i <= |metas|
          invariant forall m | m in metas :: m.text[..] == old(m.text[..])
          invariant visited == MetaOptions(old(CapeOptions(metas[..i])))
          invariant calls == Calls(visited, ms)
          invariant setBreakpoints == AnyParses(visited, ms)
          invariant dumpRegion == AnyDump(visited)
        {
          var m := metas[i];
          assert metas[..i + 1][..i] == metas[..i];
          ghost var before := old(CapeOptions(metas[..i]));
          if IsCapeOptions(m) {
            assert old(CapeOptions(metas[..i + 1])) == before + [old(m.text[..])];
            assert NoTerminator(m.text) by {
              forall k | 0 <= k < m.text.Length
                ensures m.text[k] != '\0'
              {
                assert m.text[k] == m.text[..][k] == old(m.text[..])[k];
              }
            }
            var c, sb, dr := WalkOptions(m.text, ms);
            assert (before + [m.text[..]])[..|before|] == before;
            CallsAppend(visited, Segments(m.text[..]), ms);
            AnyParsesAppend(visited, Segments(m.text[..]), ms);
            AnyParsesCalls(Segments(m.text[..]), ms);
            AnyDumpJoin(visited, Segments(m.text[..]));
            calls := calls + c;
            setBreakpoints := setBreakpoints || sb;
            dumpRegion := dumpRegion || dr;
            visited := visited + Segments(m.text[..]);
          } else {
            assert old(CapeOptions(metas[..i + 1])) == before;
          }
          i := i + 1;
        }
        assert metas[..i] == metas;
        return CallbackContinue, calls, setBreakpoints, dumpRegion;
    }
  }

  // ---- scan length ----

  /**
   * The length YaraScan hands to the scanner, or None when it scans nothing:
   * when not activated, or when the requested size, the accessible size or
   * the length left after trimming trailing zeros is 0. The requested size
   * is clamped to the accessible size before trimming. `trim` answers for
   * ReverseScanForNonZero, which never lengthens what it is given.
   */
  function ScanLength(activated: bool, size: nat, accessible: nat, trim: nat -> nat): (r: Option<nat>)
    requires forall n :: trim(n) <= n
    ensures r.None? <==> !activated || size == 0 || accessible == 0 || trim(Min(size, accessible)) == 0
    ensures r.Some? ==> 0 < r.value <= size && r.value <= accessible
  {
    if !activated || size == 0 || accessible == 0 then None
    else
      var clamped := if accessible < size then accessible else size;
      var trimmed := trim(clamped);
      if trimmed == 0 then None else Some(trimmed)
  }

  /**
   * InternalYaraScan as written: the same checks, but the scanner is handed
   * the whole accessible size rather than the clamped and trimmed length.
   */
  function InternalScanLengthAsWritten(activated: bool, size: nat, accessible: nat, trim: nat -> nat): (r: Option<nat>)
    requires forall n :: trim(n) <= n
    ensures r.None? <==> ScanLength(activated, size, accessible, trim).None?
    ensures r.Some? ==> r.value == accessible
  {
    if !activated || size == 0 || accessible == 0 then None
    else
      var clamped := if accessible < size then accessible else size;
      if trim(clamped) == 0 then None else Some(accessible)
  }

  /** A 16-byte request in a 4 KiB accessible region with nothing to trim: the internal scan covers all 4 KiB. */
  lemma InternalScanOverreaches()
    ensures var ident := (n: nat) => n;
      ScanLength(true, 0x10, 0x1000, ident) == Some(0x10)
      && InternalScanLengthAsWritten(true, 0x10, 0x1000, ident) == Some(0x1000)
  {
  }

  // ---- the RIP-relative lock address ----

  /** A little-endian DWORD read from four bytes. */
  function ReadDword(code: seq<Byte>, i: nat): (v: Dword)
    requires i + 4 <= |code|
  {
    code[i] as int + 0x100 * code[i + 1] as int + 0x1_0000 * code[i + 2] as int + 0x100_0000 * code[i + 3] as int
  }

  function EncodeDword(v: Dword): (b: seq<Byte>)
    ensures |b| == 4
  {
    [v % 0x100, v / 0x100 % 0x100, v / 0x100 / 0x100 % 0x100, v / 0x100 / 0x100 / 0x100]
  }

  lemma ReadEncoded(v: Dword)
    ensures ReadDword(EncodeDword(v), 0) == v
  {
    var b := EncodeDword(v);
    var q1 := v / 0x100;
    var q2 := q1 / 0x100;
    var q3 := q2 / 0x100;
    assert b[0] == v % 0x100 && b[1] == q1 % 0x100 && b[2] == q2 % 0x100 && b[3] == q3;
    assert v == b[0] + 0x100 * q1;
    assert q1 == b[1] + 0x100 * q2;
    assert q2 == b[2] + 0x100 * q3;
  }

  /**
   * The lock address as written: the match address plus 7 (the length of the
   * `lea rcx, [rip+disp32]` instruction) plus the displacement at match+3,
   * read as an unsigned DWORD and so never negative.
   */
  function LockAddressAsWritten(base: nat, code: seq<Byte>, offset: nat): nat
    requires offset + 7 <= |code|
  {
    (base + offset + ReadDword(code, offset + 3) + 7) % Word64
  }

  /** The lock address with the displacement sign-extended, as the processor computes a RIP-relative operand. */
  function LockAddress(base: nat, code: seq<Byte>, offset: nat): nat
    requires offset + 7 <= |code|
  {
    (base + offset + 7 + ToInt32(ReadDword(code, offset + 3))) % Word64
  }

  /**
   * The sign-extending decoder recovers the operand of any
   * `lea rcx, [rip+disp32]` whose target lies within 2 GiB of the next
   * instruction.
   */
  lemma LockAddressDecodesLea(base: nat, code: seq<Byte>, offset: nat, target: nat)
    requires offset + 7 <= |code| && target < Word64 && base + offset + 7 < Word64
    requires -0x8000_0000 <= target - (base + offset + 7) < 0x8000_0000
    requires code[offset + 3..offset + 7] == EncodeDword((target - (base + offset + 7)) % Word32)
    ensures LockAddress(base, code, offset) == target
  {
    var d := target - (base + offset + 7);
    var disp := d % Word32;
    ReadEncoded(disp);
    assert ReadDword(code, offset + 3) == ReadDword(EncodeDword(disp), 0);
    SignExtends(d);
  }

  /** A displacement within 2 GiB, stored as its 32-bit two's complement, reads back signed as itself. */
  lemma SignExtends(d: int)
    requires -0x8000_0000 <= d < 0x8000_0000
    ensures ToInt32(d % Word32) == d
  {
    if d < 0 {
      assert d % Word32 == d + Word32;
    }
  }

  /** A lea whose target lies 0x100 bytes before the next instruction: the unsigned read lands 4 GiB away from it. */
  lemma LockAddressAsWrittenMissesBackwardTarget()
    ensures var code: seq<Byte> := [0x48, 0x8D, 0x0D, 0x00, 0xFF, 0xFF, 0xFF];
      LockAddress(0x1000, code, 0) == 0xF07
      && LockAddressAsWritten(0x1000, code, 0) == 0x1_0000_0F07
  {
    var code: seq<Byte> := [0x48, 0x8D, 0x0D, 0x00, 0xFF, 0xFF, 0xFF];
    assert ReadDword(code, 3) == 0xFFFF_FF00;
  }

  const InvertedTableRule: string := "RtlInsertInvertedFunctionTable"
  const InvertedTableStrings: seq<string> := ["$10_0_19041_662", "$10_0_18362_1350"]

  /** A match of one of the two RtlInsertInvertedFunctionTable patterns of the internal rule. */
  predicate LockMatch(rule: string, m: Match)
  {
    rule == InvertedTableRule && m.identifier in InvertedTableStrings
  }

  /**
   * InternalYaraCallback on x64: for a rule match, every match of one of the
   * two RtlInsertInvertedFunctionTable patterns recomputes the lock address,
   * so the last such match decides it; with none the lock keeps its value.
   * The address is computed with the sign-extended displacement.
   */
  method InternalYaraCallback(message: CallbackMessage, rule: string, ms: seq<Match>, base: nat, code: seq<Byte>, lock: nat)
    returns (verdict: int, newLock: nat)
    requires forall j :: 0 <= j < |ms| ==> ms[j].offset + 7 <= |code|
    ensures verdict == if message.OtherMessage? then CallbackError else CallbackContinue
    ensures !message.RuleMatching? || (forall j :: 0 <= j < |ms| ==> !LockMatch(rule, ms[j])) ==> newLock == lock
    ensures message.RuleMatching? ==>
      forall j :: 0 <= j < |ms| && LockMatch(rule, ms[j]) && (forall k :: j < k < |ms| ==> !LockMatch(rule, ms[k]))
        ==> newLock == LockAddress(base, code, ms[j].offset)
  {
    newLock := lock;
    if message.RuleNotMatching? || message.ImportModule? {
      return CallbackContinue, newLock;
    }
    if message.OtherMessage? {
      return CallbackError, newLock;
    }
    ghost var last: int := -1;
    for j := 0 to |ms|
      invariant -1 <= last < j
      invariant last == -1 ==> newLock == lock && forall k :: 0 <= k < j ==> !LockMatch(rule, ms[k])
      invariant last >= 0 ==> LockMatch(rule, ms[last]) && newLock == LockAddress(base, code, ms[last].offset)
      invariant forall k :: last < k < j ==> !LockMatch(rule, ms[k])
    {
      if rule == InvertedTableRule {
        if ms[j].identifier == InvertedTableStrings[0] || ms[j].identifier == InvertedTableStrings[1] {
          newLock := LockAddress(base, code, ms[j].offset);
          last := j;
        }
      }
    }
    return CallbackContinue, newLock;
  }
}
