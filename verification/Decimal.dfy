/** Decimal numerals: printing a number and reading a 64-bit one back. */
module Decimal {
  import opened Wrappers

  const LIMIT := 0x1_0000_0000_0000_0000

  predicate IsDigit(c: char) {
    '0' <= c <= '9'
  }

  predicate AllDigits(s: string) {
    forall c :: c in s ==> IsDigit(c)
  }

  function DigitChar(d: nat): char
    requires d < 10
  {
    '0' + d as char
  }

  function Print(n: nat): (s: string)
    ensures s != "" && AllDigits(s)
    ensures n > 0 ==> s[0] != '0'
  {
    if n < 10 then [DigitChar(n)] else Print(n / 10) + [DigitChar(n % 10)]
  }

  function DigitValue(c: char): (d: nat)
    requires IsDigit(c)
    ensures d < 10 && DigitChar(d) == c
  {
    c as int - '0' as int
  }

  function Value(s: string): nat
    requires AllDigits(s)
  {
    if s == "" then 0 else 10 * Value(s[..|s| - 1]) + DigitValue(s[|s| - 1])
  }

  /** Reading an unsigned 64-bit number: fails on an empty string, a character that is no digit, or a number
      out of range. Leading zeros are fine, signs are not. */
  function ParseUint(s: string): (n: Option<nat>)
    ensures n.Some? ==> n.value < LIMIT
  {
    if s != "" && AllDigits(s) && Value(s) < LIMIT then Some(Value(s)) else None
  }

  lemma {:induction false} ValueOfPrint(n: nat)
    ensures Value(Print(n)) == n
  {
    if n >= 10 {
      ValueOfPrint(n / 10);
      assert Print(n)[..|Print(n)| - 1] == Print(n / 10);
    }
  }

  lemma {:induction false} PrintOfValue(s: string)
    requires s != "" && AllDigits(s) && (s[0] != '0' || |s| == 1)
    ensures Print(Value(s)) == s
  {
    if |s| > 1 {
      var front, last := s[..|s| - 1], s[|s| - 1];
      PrintOfValue(front);
      assert Print(0) == "0";
      assert last in s && s == front + [last];
      assert Value(s) / 10 == Value(front) && Value(s) % 10 == DigitValue(last);
    } else {
      assert s[0] in s && s[..0] == "" && Value(s) == DigitValue(s[0]);
    }
  }

  /** A printed number reads back exactly when it fits in 64 bits; what reads is a printed number exactly when it
      has no needless zero in front; no two numbers print alike. */
  lemma PrintParse(n: nat, m: nat, s: string)
    ensures ParseUint(Print(n)) == Some(n) <==> n < LIMIT
    ensures ParseUint(s).Some? ==> (Print(ParseUint(s).value) == s <==> s[0] != '0' || s == "0")
    ensures Print(n) == Print(m) ==> n == m
    ensures n < 10 ==> Print(n) == ["0123456789"[n]]
  {
    ValueOfPrint(n);
    ValueOfPrint(m);
    if ParseUint(s).Some? {
      var v := ParseUint(s).value;
      if s[0] != '0' || s == "0" {
        PrintOfValue(s);
      } else if v == 0 {
        assert Print(v) == "0";
      }
    }
  }
}
