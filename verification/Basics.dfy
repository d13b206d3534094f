/** What several modules share: optional values, minimum and maximum, powers of two, decimal digits and
    splitting a string. */
module Basics {

  datatype Option<+T> = None | Some(value: T)

  function Min(a: int, b: int): int { if a <= b then a else b }
  function Max(a: int, b: int): int { if a >= b then a else b }

  /** All the pieces between the occurrences of a character. */
  function Split(s: string, c: char): (r: seq<string>)
    ensures |r| > 0
  {
    if s == [] then [[]]
    else
      var rest := Split(s[1..], c);
      if s[0] == c then [[]] + rest else [[s[0]] + rest[0]] + rest[1..]
  }

  /** The decimal digits of a number. */
  function Digits(n: nat): string {
    (if n < 10 then "" else Digits(n / 10)) + [(n % 10 + '0' as int) as char]
  }

  lemma {:induction false} DigitsDiffer(m: nat, n: nat)
    requires Digits(m) == Digits(n)
    ensures m == n
    decreases m + n
  {
    var s, t := Digits(m), Digits(n);
    assert s[|s| - 1] == (m % 10 + '0' as int) as char && t[|t| - 1] == (n % 10 + '0' as int) as char;
    assert m % 10 == n % 10;
    assert s[..|s| - 1] == if m < 10 then "" else Digits(m / 10);
    assert t[..|t| - 1] == if n < 10 then "" else Digits(n / 10);
    if m >= 10 && n >= 10 { DigitsDiffer(m / 10, n / 10); }
  }

  function Pow2(n: nat): nat { if n == 0 then 1 else 2 * Pow2(n - 1) }

  lemma {:induction false} Pow2Grows(m: nat, n: nat)
    requires m <= n
    ensures 1 <= Pow2(m) <= Pow2(n)
    decreases n
  {
    if m < n { Pow2Grows(m, n - 1); } else if n > 0 { Pow2Grows(n - 1, n - 1); }
  }
}
