/**
 * Bytes as the firmware sees them (`uint8_t`), the ASCII characters the
 * image header and the HTTP bodies are made of, and decimal numerals as
 * `printf("%d")` writes them and `sscanf("%zu")` reads them.
 */
module Bytes {

  /** `uint8_t` */
  type byte = b: int | 0 <= b < 256

  const NUL: byte := 0
  const NEWLINE: byte := 10
  const SPACE: byte := 32
  const ZERO: byte := 48

  /** The bytes of a string of ASCII characters. */
  function Ascii(s: string): (r: seq<byte>)
    requires forall i :: 0 <= i < |s| ==> s[i] < 128 as char
    ensures |r| == |s|
    ensures forall i :: 0 <= i < |s| ==> r[i] == s[i] as int
  {
    seq(|s|, i requires 0 <= i < |s| => s[i] as int)
  }

  /** `isspace` in the C locale. */
  predicate IsSpace(b: byte) {
    b == SPACE || 9 <= b <= 13
  }

  /** `isdigit` */
  predicate IsDigit(b: byte) {
    ZERO <= b <= ZERO + 9
  }

  predicate AllDigits(d: seq<byte>) {
    forall i :: 0 <= i < |d| ==> IsDigit(d[i])
  }

  /** The number a string of decimal digits denotes, most significant digit first. */
  function DecimalValue(d: seq<byte>): nat
    requires AllDigits(d)
  {
    if d == [] then 0 else DecimalValue(d[..|d| - 1]) * 10 + (d[|d| - 1] - ZERO)
  }

  /** The numeral `printf("%d")` writes for a non-negative value. */
  function Decimal(n: nat): seq<byte> {
    if n < 10 then [ZERO + n] else Decimal(n / 10) + [ZERO + n % 10]
  }

  /** That numeral is digits only, has no leading zero except for zero itself, and reads back as `n`. */
  lemma {:induction false} DecimalNumeral(n: nat)
    ensures var r := Decimal(n); r != [] && AllDigits(r) && DecimalValue(r) == n && (|r| > 1 ==> r[0] != ZERO)
    decreases n
  {
    if n >= 10 {
      var d := Decimal(n / 10);
      DecimalNumeral(n / 10);
      var r := d + [ZERO + n % 10];
      assert r[..|r| - 1] == d;
      assert r[0] == d[0];
    }
  }

  /** The bytes that precede the first NUL: what `%s` and `strlen` see of a buffer. */
  function UpToNul(s: seq<byte>): (r: seq<byte>)
    ensures r <= s
    ensures NUL !in r
    ensures |r| < |s| ==> s[|r|] == NUL
  {
    if s == [] || s[0] == NUL then [] else [s[0]] + UpToNul(s[1..])
  }

  /** A buffer without NUL bytes is printed whole by `%s`. */
  lemma UpToNulWhole(s: seq<byte>)
    requires NUL !in s
    ensures UpToNul(s) == s
  {
  }
}
