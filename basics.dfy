/**
 * Values shared by every part of the model: an Option type for NULL results,
 * machine-word ranges, C integer conversions, and the string renderings used
 * by the pipe and debug messages (decimal for %d, fixed-width hex for %p).
 */
module Basics {

  datatype Option<T> = None | Some(value: T)

  /** 2^32 and 2^64: the value ranges of a DWORD and of an x64 pointer. */
  const Word32: nat := 0x1_0000_0000
  const Word64: nat := 0x1_0000_0000_0000_0000

  /** A DWORD: process and thread ids, sizes and flags the source keeps in 32 bits. */
  type Dword = n: nat | n < Word32

  /** The largest DWORD, the value strtoul saturates at. */
  const DwordMax: nat := 0xFFFF_FFFF

  /** MAX_PATH: the size of the fixed character buffers. */
  const MaxPath: nat := 260

  type Byte = b: int | 0 <= b < 256

  function Min(a: int, b: int): int { if a < b then a else b }

  /** A C conversion of a DWORD to `int`: values from 2^31 up wrap to negative. */
  function ToInt32(u: nat): (r: int)
    requires u < Word32
    ensures -0x8000_0000 <= r < 0x8000_0000
    ensures 0 <= r ==> r == u
    ensures r < 0 ==> r == u - Word32
  {
    if u < 0x8000_0000 then u else u - Word32
  }

  /** Negation of a 32-bit `int` as MSVC compiles it: INT_MIN negates to itself. */
  function Neg32(i: int): (r: int)
    requires -0x8000_0000 <= i < 0x8000_0000
    ensures -0x8000_0000 <= r < 0x8000_0000
    ensures i != -0x8000_0000 ==> r == -i
  {
    if i == -0x8000_0000 then i else -i
  }

  /** A string cut to at most `n` characters, as a `_TRUNCATE` print does. */
  function Truncate<T>(s: seq<T>, n: nat): (r: seq<T>)
    ensures |r| == Min(|s|, n)
    ensures r == s[..|r|]
  {
    if |s| <= n then s else s[..n]
  }

  /** The index of the first `c` in `s`, or |s| when there is none (strchr). */
  function Find(s: string, c: char): (k: nat)
    ensures k <= |s|
    ensures k < |s| ==> s[k] == c
    ensures forall i :: 0 <= i < k ==> s[i] != c
  {
    if s == [] then 0 else if s[0] == c then 0 else 1 + Find(s[1..], c)
  }

  // ---- case-insensitive comparison (_stricmp, _wcsicmp in the "C" locale) ----

  function ToLowerAscii(c: char): char
  {
    if 'A' <= c <= 'Z' then (c as int + 32) as char else c
  }

  /** `_stricmp(a, b) == 0`: equal lengths and equal characters after folding A-Z. */
  predicate EqualsIgnoreCase(a: string, b: string)
  {
    |a| == |b| && forall i :: 0 <= i < |a| ==> ToLowerAscii(a[i]) == ToLowerAscii(b[i])
  }

  // ---- digits ----

  /** The value of a digit in any base up to 16; 99 for a character that is no digit. */
  function DigitValue(c: char): nat
  {
    if '0' <= c <= '9' then c as nat - '0' as nat
    else if 'a' <= c <= 'f' then c as nat - 'a' as nat + 10
    else if 'A' <= c <= 'F' then c as nat - 'A' as nat + 10
    else 99
  }

  predicate IsDigit(c: char, base: nat) { DigitValue(c) < base }

  /** The digit for `d`, upper case as MSVC prints %p and %X. */
  function DigitChar(d: nat): (c: char)
    requires d < 16
    ensures DigitValue(c) == d
  {
    if d < 10 then ('0' as int + d) as char else ('A' as int + d - 10) as char
  }

  /** The value of a digit string, most significant digit first. */
  function ValueOf(s: string, base: nat): nat
  {
    if s == [] then 0 else ValueOf(s[..|s| - 1], base) * base + DigitValue(s[|s| - 1])
  }

  /** The longest prefix of `s` made of digits of `base`. */
  function LeadingDigits(s: string, base: nat): (r: string)
    ensures |r| <= |s| && r == s[..|r|]
    ensures forall i :: 0 <= i < |r| ==> IsDigit(r[i], base)
    ensures |r| < |s| ==> !IsDigit(s[|r|], base)
  {
    if s == [] || !IsDigit(s[0], base) then [] else [s[0]] + LeadingDigits(s[1..], base)
  }

  /** %u: the shortest decimal rendering of `n`. */
  function Decimal(n: nat): (s: string)
    ensures 1 <= |s|
    ensures forall i :: 0 <= i < |s| ==> IsDigit(s[i], 10)
  {
    if n < 10 then [DigitChar(n)] else Decimal(n / 10) + [DigitChar(n % 10)]
  }

  /** %d of an `int`. */
  function SignedDecimal(i: int): string
  {
    if i < 0 then "-" + Decimal(-i) else Decimal(i)
  }

  /** %d applied to a DWORD argument, which reinterprets it as a signed `int`. */
  function DwordAsD(u: nat): string
    requires u < Word32
  {
    SignedDecimal(ToInt32(u))
  }

  /** The `width` low hexadecimal digits of `n`, zero padded (%p prints 16 of them on x64). */
  function Hex(n: nat, width: nat): (s: string)
    ensures |s| == width
    ensures forall i :: 0 <= i < |s| ==> IsDigit(s[i], 16)
  {
    if width == 0 then [] else Hex(n / 16, width - 1) + [DigitChar(n % 16)]
  }

  function Pow(b: nat, e: nat): nat
  {
    if e == 0 then 1 else b * Pow(b, e - 1)
  }

  /** Reading a decimal rendering back gives the number: %u is injective. */
  lemma {:induction false} DecimalRoundTrip(n: nat)
    ensures ValueOf(Decimal(n), 10) == n
  {
    var s := Decimal(n);
    if n >= 10 {
      DecimalRoundTrip(n / 10);
      assert s[..|s| - 1] == Decimal(n / 10);
    }
  }

  /** Reading a fixed-width hex rendering back gives the number when it fits in the width. */
  lemma {:induction false} HexRoundTrip(n: nat, width: nat)
    requires n < Pow(16, width)
    ensures ValueOf(Hex(n, width), 16) == n
  {
    var s := Hex(n, width);
    if width > 0 {
      assert n / 16 < Pow(16, width - 1);
      HexRoundTrip(n / 16, width - 1);
      assert s[..|s| - 1] == Hex(n / 16, width - 1);
    }
  }

  lemma DecimalInjective(a: nat, b: nat)
    requires Decimal(a) == Decimal(b)
    ensures a == b
  {
    DecimalRoundTrip(a);
    DecimalRoundTrip(b);
  }

  /** %d renders distinct `int`s differently: the sign is the leading '-' and the magnitude is the %u rest. */
  lemma SignedDecimalInjective(x: int, y: int)
    requires SignedDecimal(x) == SignedDecimal(y)
    ensures x == y
  {
    var s := SignedDecimal(x);
    SignedDecimalSign(x);
    SignedDecimalSign(y);
    if x < 0 {
      assert Decimal(-x) == s[1..] == Decimal(-y);
      DecimalInjective(-x, -y);
    } else {
      DecimalInjective(x, y);
    }
  }

  /** %d of an `int` opens with '-' exactly when the `int` is negative. */
  lemma SignedDecimalSign(i: int)
    ensures |SignedDecimal(i)| > 0 && (SignedDecimal(i)[0] == '-' <==> i < 0)
  {
    if i >= 0 {
      assert IsDigit(Decimal(i)[0], 10);
    }
  }

  /** %p on x64: 16 upper-case hex digits. */
  function PointerText(a: nat): (s: string)
    ensures |s| == 16
  {
    Hex(a, 16)
  }

  /** A pointer rendering reads back as the pointer. */
  lemma PointerTextRoundTrip(a: nat)
    requires a < Word64
    ensures ValueOf(PointerText(a), 16) == a
  {
    assert Pow(16, 4) == 0x1_0000 by {
      assert Pow(16, 1) == 16 && Pow(16, 2) == 0x100 && Pow(16, 3) == 0x1000;
    }
    assert Pow(16, 8) == 0x1_0000_0000 by {
      assert Pow(16, 5) == 0x10_0000 && Pow(16, 6) == 0x100_0000 && Pow(16, 7) == 0x1000_0000;
    }
    assert Pow(16, 12) == 0x1_0000_0000_0000 by {
      assert Pow(16, 9) == 0x10_0000_0000 && Pow(16, 10) == 0x100_0000_0000 && Pow(16, 11) == 0x1000_0000_0000;
    }
    assert Pow(16, 16) == Word64 by {
      assert Pow(16, 13) == 0x10_0000_0000_0000 && Pow(16, 14) == 0x100_0000_0000_0000;
      assert Pow(16, 15) == 0x1000_0000_0000_0000;
    }
    HexRoundTrip(a, 16);
  }

  /** A 64-bit pointer. */
  type Pointer = a: nat | a < Word64

  /** Find lands on the first `c` after a stretch free of it. */
  lemma FindAfter(pre: string, c: char, post: string)
    requires c !in pre
    ensures Find(pre + [c] + post, c) == |pre|
  {
    var s := pre + [c] + post;
    assert s[|pre|] == c;
    assert forall i :: 0 <= i < |pre| ==> s[i] == pre[i];
  }

  /** Find runs off the end of a string free of `c`. */
  lemma FindAbsent(s: string, c: char)
    requires c !in s
    ensures Find(s, c) == |s|
  {
  }

  /** `a` starts `b`. */
  predicate IsPrefix(a: string, b: string)
  {
    |a| <= |b| && a == b[..|a|]
  }

  /** Find stops at `k` when `k` holds the first `c`, or runs to the end when there is none. */
  lemma FindAt(s: string, c: char, k: nat)
    requires k <= |s| && (k < |s| ==> s[k] == c)
    requires forall i :: 0 <= i < k ==> s[i] != c
    ensures Find(s, c) == k
  {
  }

  /** Concatenation is associative. */
  lemma AppendAssociates<T>(a: seq<T>, b: seq<T>, c: seq<T>)
    ensures a + b + c == a + (b + c)
  {
  }
}
