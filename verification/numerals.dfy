/**
 * Numbers written out as text and read back: what Number.prototype.toString,
 * padStart, Number() and parseInt do on naturals, in any base up to 16.
 */
module Numerals {
  import opened Options

  const DIGITS := "0123456789abcdef"

  type Base = b: nat | 2 <= b <= 16 witness 10

  /** The value of a digit; 16, which is no digit in any base, for other characters. */
  function DigitValue(c: char): nat {
    if '0' <= c <= '9' then c as int - '0' as int
    else if 'a' <= c <= 'f' then c as int - 'a' as int + 10
    else if 'A' <= c <= 'F' then c as int - 'A' as int + 10
    else 16
  }

  predicate IsDigit(c: char, base: Base) {
    DigitValue(c) < base
  }

  predicate AllDigits(s: string, base: Base) {
    forall i :: 0 <= i < |s| ==> IsDigit(s[i], base)
  }

  function Print(n: nat, base: Base): string {
    if n < base then [DIGITS[n]] else Print(n / base, base) + [DIGITS[n % base]]
  }

  function Read(s: string, base: Base): nat
    requires AllDigits(s, base)
  {
    if s == [] then 0 else Read(s[..|s| - 1], base) * base + DigitValue(s[|s| - 1])
  }

  function Decimal(n: nat): string {
    Print(n, 10)
  }

  lemma DigitOf(d: nat, base: Base)
    requires d < base
    ensures DigitValue(DIGITS[d]) == d
  {
  }

  lemma ReadAppend(s: string, c: char, base: Base)
    requires AllDigits(s, base) && IsDigit(c, base)
    ensures AllDigits(s + [c], base)
    ensures Read(s + [c], base) == Read(s, base) * base + DigitValue(c)
  {
    assert (s + [c])[..|s|] == s;
  }

  lemma DivMod(n: nat, base: Base)
    ensures n == n / base * base + n % base
    ensures 0 <= n / base <= n && (0 < n ==> n / base < n)
  {
  }

  lemma PrintStep(n: nat, base: Base)
    requires base <= n
    ensures Print(n, base) == Print(n / base, base) + [DIGITS[n % base]]
  {
  }

  /** Reading what was printed gives the number back. */
  lemma {:induction false} ReadPrint(n: nat, base: Base)
    ensures Print(n, base) != []
    ensures AllDigits(Print(n, base), base)
    ensures Read(Print(n, base), base) == n
  {
    if n < base {
      DigitOf(n, base);
      assert Print(n, base)[..0] == [];
    } else {
      var q, r := n / base, n % base;
      DivMod(n, base);
      DigitOf(r, base);
      ReadPrint(q, base);
      PrintStep(n, base);
      ReadAppend(Print(q, base), DIGITS[r], base);
    }
  }

  lemma PrintInjective(m: nat, n: nat, base: Base)
    requires Print(m, base) == Print(n, base)
    ensures m == n
  {
    ReadPrint(m, base);
    ReadPrint(n, base);
  }

  /** Every printed character is one of the sixteen digits, so never punctuation. */
  lemma {:induction false} PrintChars(n: nat, base: Base)
    ensures forall i :: 0 <= i < |Print(n, base)| ==> Print(n, base)[i] in DIGITS[..base]
  {
    if n < base {
      assert DIGITS[..base][n] == DIGITS[n];
    } else {
      PrintChars(n / base, base);
      assert DIGITS[..base][n % base] == DIGITS[n % base];
    }
  }

  function Zeros(k: nat): string {
    seq(k, _ => '0')
  }

  /** `s.padStart(width, '0')` */
  function PadStart(s: string, width: nat): string {
    if |s| < width then Zeros(width - |s|) + s else s
  }

  lemma {:induction false} ReadZeros(k: nat, s: string, base: Base)
    requires AllDigits(s, base)
    ensures AllDigits(Zeros(k) + s, base)
    ensures Read(Zeros(k) + s, base) == Read(s, base)
    decreases |s|, k
  {
    var t := Zeros(k) + s;
    assert forall i :: 0 <= i < |t| ==> t[i] == (if i < k then '0' else s[i - k]);
    if s != [] {
      ReadZeros(k, s[..|s| - 1], base);
      assert t[..|t| - 1] == Zeros(k) + s[..|s| - 1];
    } else if k > 0 {
      ReadZeros(k - 1, s, base);
      assert t[..|t| - 1] == Zeros(k - 1) + s;
    }
  }

  /** Padding with zeros does not change the number read back. */
  lemma ReadPadded(n: nat, width: nat, base: Base)
    ensures PadStart(Print(n, base), width) != []
    ensures AllDigits(PadStart(Print(n, base), width), base)
    ensures Read(PadStart(Print(n, base), width), base) == n
  {
    ReadPrint(n, base);
    var s := Print(n, base);
    if |s| < width {
      ReadZeros(width - |s|, s, base);
    }
  }

  /** The longest prefix of digits, as parseInt takes it. */
  function DigitPrefix(s: string, base: Base): (n: nat)
    ensures n <= |s| && AllDigits(s[..n], base)
    ensures n < |s| ==> !IsDigit(s[n], base)
  {
    if s == [] || !IsDigit(s[0], base) then 0
    else
      var k := DigitPrefix(s[1..], base);
      assert s[..1 + k] == [s[0]] + s[1..][..k];
      1 + k
  }

  /** `parseInt(s, base)` without sign and blanks; None is NaN. */
  function ParseDigits(s: string, base: Base): Option<nat> {
    var n := DigitPrefix(s, base);
    if n == 0 then None else Some(Read(s[..n], base))
  }

  lemma {:induction false} DigitPrefixWhole(s: string, base: Base)
    requires AllDigits(s, base)
    ensures DigitPrefix(s, base) == |s|
  {
    if s != [] {
      DigitPrefixWhole(s[1..], base);
    }
  }

  /** parseInt gives back what toString(base).padStart(width, '0') printed. */
  lemma {:induction false} ParsePrinted(n: nat, width: nat, base: Base)
    ensures ParseDigits(PadStart(Print(n, base), width), base) == Some(n)
  {
    var s := PadStart(Print(n, base), width);
    ReadPadded(n, width, base);
    DigitPrefixWhole(s, base);
    assert s[..|s|] == s;
  }

  /** `Number(s)` on text that is a decimal numeral, or empty, which is zero; None stands for
      everything else. */
  function ToNumber(s: string): Option<nat> {
    if AllDigits(s, 10) then Some(Read(s, 10)) else None
  }

  /** Letters are digits in either case. */
  lemma DigitCases(i: nat)
    requires i < 6
    ensures DigitValue("ABCDEF"[i]) == DigitValue("abcdef"[i]) == 10 + i
  {
  }

  lemma ToNumberDecimal(n: nat)
    ensures ToNumber(Decimal(n)) == Some(n)
  {
    ReadPrint(n, 10);
  }
}
