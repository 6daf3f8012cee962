/** Numbers as text: `std::to_string`, `%PRIx64`, and `strtoull` with the checks
    `sai_deserialize_number` makes on it (saiserialize.cpp). */
module NumberText {
  import opened Sai

  type Base = b: nat | b == 10 || b == 16 witness 10

  /** Every character of `s` satisfies `p`. */
  predicate All(s: string, p: char -> bool) { forall c <- s :: p(c) }

  predicate IsDecimal(c: char) { '0' <= c <= '9' }
  predicate IsLowerHex(c: char) { IsDecimal(c) || 'a' <= c <= 'f' }
  predicate IsNumberChar(c: char) { IsDecimal(c) || c == '-' }

  function DigitChar(d: nat): (c: char)
    requires d < 16
    ensures IsLowerHex(c) && (d < 10 ==> IsDecimal(c))
  {
    if d < 10 then ('0' as nat + d) as char else ('a' as nat + d - 10) as char
  }

  /** `%X` of one digit */
  function UpperDigitChar(d: nat): (c: char)
    requires d < 16
  {
    if d < 10 then ('0' as nat + d) as char else ('A' as nat + d - 10) as char
  }

  function Digits(n: nat, base: Base): (s: string)
    ensures |s| > 0 && All(s, IsLowerHex)
    ensures base == 10 ==> All(s, IsDecimal)
  {
    if n < base then [DigitChar(n)] else Digits(n / base, base) + [DigitChar(n % base)]
  }

  /** `std::to_string` */
  function Decimal(n: int): (s: string)
    ensures |s| > 0 && All(s, IsNumberChar)
  {
    if n < 0 then "-" + Digits(-n, 10) else Digits(n, 10)
  }

  /** `snprintf("0x%" PRIx64)` */
  function Hex(n: nat): string { "0x" + Digits(n, 16) }

  /** `char_to_int`, which throws (None) on any other character. */
  function CharToInt(c: char): (r: Option<nat>)
    ensures r.Some? ==> r.value < 16
  {
    if '0' <= c <= '9' then Some(c as nat - '0' as nat)
    else if 'A' <= c <= 'F' then Some(c as nat - 'A' as nat + 10)
    else if 'a' <= c <= 'f' then Some(c as nat - 'a' as nat + 10)
    else None
  }

  predicate IsDigitOf(c: char, base: Base) {
    CharToInt(c).Some? && CharToInt(c).value < base
  }

  predicate AllDigits(s: string, base: Base) {
    forall i :: 0 <= i < |s| ==> IsDigitOf(s[i], base)
  }

  function Value(s: string, base: Base): nat
    requires AllDigits(s, base)
  {
    if s == "" then 0
    else
      assert IsDigitOf(s[|s| - 1], base);
      Value(s[..|s| - 1], base) * base + CharToInt(s[|s| - 1]).value
  }

  function SkipSpace(s: string): string {
    if s != "" && s[0] in {' ', '\t', '\n', '\r', 11 as char, 12 as char} then SkipSpace(s[1..]) else s
  }

  /** `strtoull` as its caller uses it: the value when `errno` stays zero and the end
      pointer reaches the end of the text. An empty text therefore reads as zero, and a
      minus sign negates modulo 2^64. */
  function StrToULL(s: string, base: Base): (r: Option<nat>)
    ensures r.Some? ==> r.value < TWO_64
  {
    if s == "" then Some(0)
    else
      var t := SkipSpace(s);
      var negative := t != "" && t[0] == '-';
      var u := if t != "" && t[0] in {'-', '+'} then t[1..] else t;
      var v := if base == 16 && |u| > 2 && u[0] == '0' && u[1] in {'x', 'X'} && IsDigitOf(u[2], 16)
               then u[2..] else u;
      if v == "" || !AllDigits(v, base) then None
      else
        var magnitude := Value(v, base);
        if magnitude >= TWO_64 then None
        else Some(if negative then (TWO_64 - magnitude) % TWO_64 else magnitude)
  }

  /** The C++ cast from `unsigned long long` to an integer type. */
  function Cast(k: NumKind, n: nat): int {
    var r := n % Modulus(k);
    if Signed(k) && r >= Modulus(k) / 2 then r - Modulus(k) else r
  }

  /** `sai_serialize_number`: hexadecimal prints the 64-bit sign extension. */
  function SerializeNumber(n: int, hex: bool): string {
    if hex then Hex(n % TWO_64) else Decimal(n)
  }

  /** `sai_deserialize_number`; None is the exception. */
  function DeserializeNumber(k: NumKind, s: string, hex: bool): Option<int> {
    match StrToULL(s, if hex then 16 else 10)
    case None => None
    case Some(n) => Some(Cast(k, n))
  }

  // ----------------------------------------------------------------- lemmas

  lemma CharToIntOfDigit(d: nat)
    requires d < 16
    ensures CharToInt(DigitChar(d)) == Some(d) && CharToInt(UpperDigitChar(d)) == Some(d)
  {
  }

  lemma ValueAppend(s: string, c: char, base: Base)
    requires AllDigits(s, base) && IsDigitOf(c, base)
    ensures AllDigits(s + [c], base)
    ensures Value(s + [c], base) == Value(s, base) * base + CharToInt(c).value
  {
    assert (s + [c])[..|s + [c]| - 1] == s;
  }

  lemma {:induction false} DigitsValue(n: nat, base: Base)
    ensures AllDigits(Digits(n, base), base)
    ensures Value(Digits(n, base), base) == n
  {
    if n >= base {
      var q, r := n / base, n % base;
      assert n == q * base + r;
      DigitsValue(q, base);
      CharToIntOfDigit(r);
      ValueAppend(Digits(q, base), DigitChar(r), base);
    } else {
      CharToIntOfDigit(n);
      ValueAppend("", DigitChar(n), base);
      assert "" + [DigitChar(n)] == [DigitChar(n)];
    }
  }

  lemma StrToULLDigits(n: nat, base: Base)
    requires n < TWO_64
    ensures StrToULL(Digits(n, base), base) == Some(n)
  {
    DigitsValue(n, base);
    PlainNumber(Digits(n, base), base);
  }

  /** No space, sign or prefix to skip: the text is its digits. */
  lemma PlainNumber(s: string, base: Base)
    requires s != "" && All(s, IsLowerHex) && AllDigits(s, base)
    ensures StrToULL(s, base) == if Value(s, base) < TWO_64 then Some(Value(s, base)) else None
  {
    assert s[0] in s && IsLowerHex(s[0]);
    assert |s| > 1 ==> s[1] in s && IsLowerHex(s[1]);
    assert SkipSpace(s) == s;
  }

  lemma StrToULLHex(n: nat)
    requires n < TWO_64
    ensures StrToULL(Hex(n), 16) == Some(n)
  {
    DigitsValue(n, 16);
    var s := Hex(n);
    assert s[0] == '0' && s[1] == 'x' && s[2..] == Digits(n, 16);
    assert s[2] == Digits(n, 16)[0];
  }

  lemma StrToULLNegative(n: nat)
    requires 0 < n <= TWO_64 / 2
    ensures StrToULL("-" + Digits(n, 10), 10) == Some(TWO_64 - n)
  {
    DigitsValue(n, 10);
    var d := Digits(n, 10);
    var s := "-" + d;
    assert SkipSpace(s) == s;
    assert s[0] == '-' && s[1..] == d;
    assert (TWO_64 - n) % TWO_64 == TWO_64 - n;
  }

  /** Truncating the 64-bit pattern of a number that fits gives the number back,
      whether the pattern came from a sign extension or from negating its magnitude. */
  lemma CastPattern(k: NumKind, n: int)
    requires Fits(k, n)
    ensures Cast(k, if n < 0 then n + TWO_64 else n) == n
  {
    if n < 0 {
      CastNegative(k, n);
    } else {
      CastNatural(k, n);
    }
  }

  lemma CastNatural(k: NumKind, n: nat)
    requires Fits(k, n)
    ensures Cast(k, n) == n
  {
    match k
    case U8 => assert n % 0x100 == n;
    case S8 => assert n % 0x100 == n;
    case U16 => assert n % 0x1_0000 == n;
    case S16 => assert n % 0x1_0000 == n;
    case U32 => assert n % 0x1_0000_0000 == n;
    case S32 => assert n % 0x1_0000_0000 == n;
    case _ => assert n % TWO_64 == n;
  }

  lemma CastNegative(k: NumKind, n: int)
    requires Fits(k, n) && n < 0
    ensures Cast(k, n + TWO_64) == n
  {
    match k
    case S8 => WrapNegative8(n);
    case S16 => WrapNegative16(n);
    case S32 => WrapNegative32(n);
    case S64 =>
  }

  lemma WrapNegative8(n: int)
    requires -0x80 <= n < 0
    ensures (n + TWO_64) % 0x100 == n + 0x100
  {
    assert n + TWO_64 == 0x100 * 0xFF_FFFF_FFFF_FFFF + (n + 0x100);
  }

  lemma WrapNegative16(n: int)
    requires -0x8000 <= n < 0
    ensures (n + TWO_64) % 0x1_0000 == n + 0x1_0000
  {
    assert n + TWO_64 == 0x1_0000 * 0xFFFF_FFFF_FFFF + (n + 0x1_0000);
  }

  lemma WrapNegative32(n: int)
    requires -0x8000_0000 <= n < 0
    ensures (n + TWO_64) % 0x1_0000_0000 == n + 0x1_0000_0000
  {
    assert n + TWO_64 == 0x1_0000_0000 * 0xFFFF_FFFF + (n + 0x1_0000_0000);
  }

  lemma FitsIn64(k: NumKind, n: int)
    requires Fits(k, n)
    ensures -(TWO_64 / 2) <= n < TWO_64
    ensures n % TWO_64 == if n < 0 then n + TWO_64 else n
  {
  }

  /** Numbers of every width and sign survive printing and parsing, in both bases. */
  lemma NumberRoundTrip(k: NumKind, n: int, hex: bool)
    requires Fits(k, n)
    ensures DeserializeNumber(k, SerializeNumber(n, hex), hex) == Some(n)
  {
    FitsIn64(k, n);
    PatternRoundTrip(n, hex);
    CastPattern(k, n);
  }

  lemma PatternRoundTrip(n: int, hex: bool)
    requires -(TWO_64 / 2) <= n < TWO_64
    requires n % TWO_64 == if n < 0 then n + TWO_64 else n
    ensures StrToULL(SerializeNumber(n, hex), if hex then 16 else 10)
         == Some(if n < 0 then n + TWO_64 else n)
  {
    if hex {
      StrToULLHex(n % TWO_64);
    } else if n < 0 {
      StrToULLNegative(-n);
    } else {
      StrToULLDigits(n, 10);
    }
  }

  lemma DigitsInjective(m: nat, n: nat, base: Base)
    requires Digits(m, base) == Digits(n, base)
    ensures m == n
  {
    DigitsValue(m, base);
    DigitsValue(n, base);
  }

  /** No two numbers print alike. */
  lemma DecimalInjective(m: int, n: int)
    requires Decimal(m) == Decimal(n)
    ensures m == n
  {
    DecimalSign(m);
    DecimalSign(n);
    if m < 0 {
      assert Decimal(m)[1..] == Digits(-m, 10);
      assert Decimal(n)[1..] == Digits(-n, 10);
      DigitsInjective(-m, -n, 10);
    } else {
      DigitsInjective(m, n, 10);
    }
  }

  lemma DecimalSign(n: int)
    ensures Decimal(n)[0] == '-' <==> n < 0
  {
    if n >= 0 {
      var s := Digits(n, 10);
      assert s[0] in s && IsDecimal(s[0]);
    }
  }
}
