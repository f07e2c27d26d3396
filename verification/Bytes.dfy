/** Bytes, byte searches, UTF-8 validity and decimal numerals: what the STOMP codec takes from
    the Rust standard library. */
module Bytes {
  import opened Prelude

  type Byte = b: int | 0 <= b < 256
  type Bytes = seq<Byte>

  const NUL: Byte := 0
  const LF: Byte := 10
  const CR: Byte := 13
  const PLUS: Byte := 43
  const COLON: Byte := 58
  const BACKSLASH: Byte := 92

  /** The bytes of an ASCII literal. */
  function Ascii(s: string): (r: Bytes)
    requires forall i :: 0 <= i < |s| ==> s[i] as int < 128
    ensures |r| == |s|
    ensures forall i :: 0 <= i < |s| ==> r[i] == s[i] as int
  {
    seq(|s|, i requires 0 <= i < |s| => s[i] as int)
  }

  /** Position of the first `b` in `s`, as `memchr` and `Iterator::position` report it. */
  function IndexOf(b: Byte, s: Bytes): (r: Option<nat>)
    ensures r.None? ==> b !in s
    ensures r.Some? ==> r.value < |s| && s[r.value] == b && b !in s[..r.value]
  {
    if s == [] then None
    else if s[0] == b then Some(0)
    else
      match IndexOf(b, s[1..])
      case None => None
      case Some(i) =>
        assert s[..i + 1] == [s[0]] + s[1..][..i];
        Some(i + 1)
  }

  lemma {:induction false} IndexOfUnique(b: Byte, s: Bytes, i: nat)
    requires i < |s| && s[i] == b && b !in s[..i]
    ensures IndexOf(b, s) == Some(i)
  {
    if i > 0 {
      assert s[..i][0] == s[0] && s[1..][..i - 1] == s[..i][1..];
      IndexOfUnique(b, s[1..], i - 1);
    }
  }

  /** For loops that append to an output. */
  lemma Regroup(a: Bytes, b: Bytes, c: Bytes)
    ensures a + (b + c) == (a + b) + c
  {
  }

  /** `r` is what remains of `s` after some of its front was consumed. */
  predicate Suffix(r: Bytes, s: Bytes) {
    |r| <= |s| && r == s[|s| - |r|..]
  }

  lemma SuffixTrans(a: Bytes, b: Bytes, c: Bytes)
    requires Suffix(a, b) && Suffix(b, c)
    ensures Suffix(a, c)
  {
    assert c[|c| - |b|..][|b| - |a|..] == c[|c| - |a|..];
  }

  // ---------------------------------------------------------------- UTF-8

  predicate Continuation(b: Byte) { 0x80 <= b <= 0xBF }

  predicate LeadsThree(b: Byte, c: Byte) {
    || (b == 0xE0 && 0xA0 <= c <= 0xBF)
    || (0xE1 <= b <= 0xEC && Continuation(c))
    || (b == 0xED && 0x80 <= c <= 0x9F)
    || (0xEE <= b <= 0xEF && Continuation(c))
  }

  predicate LeadsFour(b: Byte, c: Byte) {
    || (b == 0xF0 && 0x90 <= c <= 0xBF)
    || (0xF1 <= b <= 0xF3 && Continuation(c))
    || (b == 0xF4 && 0x80 <= c <= 0x8F)
  }

  /** Length of the well-formed character that starts `s`, 0 when there is none
      (the syntax of section 4 of RFC 3629). */
  function CharLen(s: Bytes): (n: nat)
    ensures n <= |s| && n <= 4
    ensures n > 1 ==> forall i :: 0 <= i < n ==> s[i] >= 0x80
  {
    if |s| >= 1 && s[0] < 0x80 then 1
    else if |s| >= 2 && 0xC2 <= s[0] <= 0xDF && Continuation(s[1]) then 2
    else if |s| >= 3 && LeadsThree(s[0], s[1]) && Continuation(s[2]) then 3
    else if |s| >= 4 && LeadsFour(s[0], s[1]) && Continuation(s[2]) && Continuation(s[3]) then 4
    else 0
  }

  predicate ValidUtf8(s: Bytes)
    decreases |s|
  {
    s == [] || (CharLen(s) > 0 && ValidUtf8(s[CharLen(s)..]))
  }

  lemma CharLenExtends(a: Bytes, b: Bytes)
    requires CharLen(a) > 0
    ensures CharLen(a + b) == CharLen(a)
  {
    var s := a + b;
    assert forall i :: 0 <= i < |a| ==> s[i] == a[i];
  }

  lemma DropFront(a: Bytes, b: Bytes, n: nat)
    requires n <= |a|
    ensures (a + b)[n..] == a[n..] + b
  {
  }

  lemma {:induction false} Utf8Concat(a: Bytes, b: Bytes)
    requires ValidUtf8(a) && ValidUtf8(b)
    ensures ValidUtf8(a + b)
    decreases |a|
  {
    if a == [] {
      assert a + b == b;
    } else {
      CharLenExtends(a, b);
      Utf8Concat(a[CharLen(a)..], b);
      DropFront(a, b, CharLen(a));
    }
  }

  lemma {:induction false} AsciiIsUtf8(s: Bytes)
    requires forall i :: 0 <= i < |s| ==> s[i] < 0x80
    ensures ValidUtf8(s)
  {
    if s != [] {
      AsciiIsUtf8(s[1..]);
    }
  }

  lemma LiteralIsUtf8(s: string)
    requires forall i :: 0 <= i < |s| ==> s[i] as int < 128
    ensures ValidUtf8(Ascii(s))
  {
    AsciiIsUtf8(Ascii(s));
  }

  // ------------------------------------------------------- decimal numerals

  /** `usize::MAX` on the 64-bit targets vdsm-rs is packaged for. */
  const USIZE_MAX: nat := 0xFFFF_FFFF_FFFF_FFFF

  predicate IsDigit(b: Byte) { 48 <= b <= 57 }

  predicate AllDigits(s: Bytes) { forall i :: 0 <= i < |s| ==> IsDigit(s[i]) }

  function DecimalValue(s: Bytes): nat
    requires AllDigits(s)
  {
    if s == [] then 0 else 10 * DecimalValue(s[..|s| - 1]) + (s[|s| - 1] - 48)
  }

  /** `str::parse::<usize>`: one optional leading `+`, at least one digit, no overflow. */
  function ParseUsize(s: Bytes): Option<nat> {
    var digits := if |s| > 1 && s[0] == PLUS then s[1..] else s;
    if digits == [] || !AllDigits(digits) then None
    else if DecimalValue(digits) > USIZE_MAX then None
    else Some(DecimalValue(digits))
  }

  /** `usize::to_string`. */
  function ToDecimal(n: nat): (s: Bytes)
    ensures |s| > 0 && AllDigits(s)
    ensures DecimalValue(s) == n
  {
    if n < 10 then
      [48 + n]
    else
      var s := ToDecimal(n / 10) + [48 + n % 10];
      assert s[..|s| - 1] == ToDecimal(n / 10);
      s
  }

  lemma ParsePrinted(n: nat)
    requires n <= USIZE_MAX
    ensures ParseUsize(ToDecimal(n)) == Some(n)
  {
    assert IsDigit(ToDecimal(n)[0]);
  }
}
