/**
 * Characters and decimal numbers as the driver's regular expressions and
 * Java's integer formatting see them: ASCII-only case folding, Java's `\s`
 * and `\d` classes, `Integer.parseInt` on digit runs, `Integer.toString` and
 * `String.format("%0<w>d", n)` for non-negative `n` in a locale whose digits
 * are the ASCII `0`-`9`.
 */
module Text {

  /** Java's `\s` without UNICODE_CHARACTER_CLASS: space, tab, LF, VT, FF, CR. */
  predicate IsSpace(c: char) {
    c == ' ' || '\t' <= c <= '\r'
  }

  /** Java's `\d` without UNICODE_CHARACTER_CLASS. */
  predicate IsDigit(c: char) {
    '0' <= c <= '9'
  }

  /** Lower-cases A-Z and leaves every other character alone: CASE_INSENSITIVE without UNICODE_CASE. */
  function Fold(c: char): char {
    if 'A' <= c <= 'Z' then (c as int + 32) as char else c
  }

  /** Upper-cases a-z: `toUpperCase` restricted to the ASCII text the patterns can capture. */
  function Upper(c: char): char {
    if 'a' <= c <= 'z' then (c as int - 32) as char else c
  }

  /**
   * `toUpperCase` on ASCII text: the same text up to case, with no lower-case
   * letter left.  The two conditions pin each character down.
   */
  function UpperString(s: string): (r: string)
    ensures |r| == |s|
    ensures forall k :: 0 <= k < |s| ==> Fold(r[k]) == Fold(s[k]) && !('a' <= r[k] <= 'z')
  {
    seq(|s|, k requires 0 <= k < |s| => Upper(s[k]))
  }

  /** The two character classes that decide where a greedy run of a pattern stops. */
  datatype CharClass = SpaceClass | DigitClass

  predicate InClass(c: char, cls: CharClass) {
    match cls
    case SpaceClass => IsSpace(c)
    case DigitClass => IsDigit(c)
  }

  /** Case folding never moves a character into or out of either class. */
  lemma FoldKeepsClass(a: char, b: char, cls: CharClass)
    requires Fold(a) == Fold(b)
    ensures InClass(a, cls) <==> InClass(b, cls)
  {
  }

  predicate AllDigits(s: string) {
    forall k :: 0 <= k < |s| ==> IsDigit(s[k])
  }

  function DigitValue(c: char): (d: nat)
    requires IsDigit(c)
    ensures d < 10
  {
    c as int - '0' as int
  }

  function DigitChar(d: nat): (c: char)
    requires d < 10
    ensures IsDigit(c) && DigitValue(c) == d
  {
    ('0' as int + d) as char
  }

  /** The value of a run of decimal digits, leading zeros allowed, with no upper bound. */
  function DigitsValue(s: string): nat
    requires AllDigits(s)
    decreases |s|
  {
    if s == [] then 0 else DigitsValue(s[..|s| - 1]) * 10 + DigitValue(s[|s| - 1])
  }

  /** Java's Integer.MAX_VALUE: `Integer.parseInt` rejects any larger digit run. */
  const MaxInt: nat := 0x7fff_ffff

  /** `Integer.toString(n)` for n >= 0: the shortest decimal spelling of n. */
  function Decimal(n: nat): (r: string)
    ensures |r| > 0 && AllDigits(r)
    ensures DigitsValue(r) == n
    ensures r[0] == '0' ==> n == 0 && |r| == 1
    decreases n
  {
    if n < 10 then [DigitChar(n)] else Decimal(n / 10) + [DigitChar(n % 10)]
  }

  function Zeros(k: nat): (r: string)
    ensures |r| == k && forall i :: 0 <= i < k ==> r[i] == '0'
  {
    seq(k, _ => '0')
  }

  lemma {:induction false} ZerosValue(k: nat)
    ensures AllDigits(Zeros(k)) && DigitsValue(Zeros(k)) == 0
  {
    if k > 0 {
      assert Zeros(k)[..k - 1] == Zeros(k - 1);
      ZerosValue(k - 1);
    }
  }

  /** Leading zeros do not change the value of a digit run (`parseInt("0003") == 3`). */
  lemma {:induction false} LeadingZeros(k: nat, s: string)
    requires AllDigits(s)
    ensures AllDigits(Zeros(k) + s) && DigitsValue(Zeros(k) + s) == DigitsValue(s)
    decreases |s|
  {
    var z := Zeros(k) + s;
    if s == [] {
      assert z == Zeros(k);
      ZerosValue(k);
    } else {
      assert z[..|z| - 1] == Zeros(k) + s[..|s| - 1];
      LeadingZeros(k, s[..|s| - 1]);
    }
  }

  function Max(a: nat, b: nat): nat {
    if a < b then b else a
  }

  /**
   * `String.format("%0" + width + "d", n)` for n >= 0 in a locale with ASCII
   * digits: the decimal digits of n, with zeros in front up to `width`
   * characters and never truncated.
   */
  function ZeroPad(n: nat, width: nat): (r: string)
    ensures |r| == Max(width, |Decimal(n)|)
    ensures AllDigits(r) && DigitsValue(r) == n
  {
    var d := Decimal(n);
    if width > |d| then
      LeadingZeros(width - |d|, d);
      Zeros(width - |d|) + d
    else
      d
  }
}
