/** Fixed-width hexadecimal numbers, printed with upper-case digits and parsed in either case. */
module Hex {
  import opened Paths

  function Pow16(k: nat): (p: nat)
    ensures p > 0
  {
    if k == 0 then 1 else 16 * Pow16(k - 1)
  }

  predicate IsHexDigit(c: char) {
    '0' <= c <= '9' || 'A' <= c <= 'F' || 'a' <= c <= 'f'
  }

  predicate AllHex(s: string) {
    forall i :: 0 <= i < |s| ==> IsHexDigit(s[i])
  }

  function DigitValue(c: char): (v: nat)
    requires IsHexDigit(c)
    ensures v < 16
  {
    if '0' <= c <= '9' then (c as int) - ('0' as int)
    else if 'A' <= c <= 'F' then (c as int) - ('A' as int) + 10
    else (c as int) - ('a' as int) + 10
  }

  function Digit(d: nat): (c: char)
    requires d < 16
    ensures IsHexDigit(c) && DigitValue(c) == d && c !in "abcdef/"
  {
    if d < 10 then '0' + (d as char) else 'A' + ((d - 10) as char)
  }

  /** The low k digits of n, most significant first. */
  function Print(n: nat, k: nat): (s: string)
    ensures |s| == k && AllHex(s) && '/' !in s
    decreases k
  {
    if k == 0 then "" else Print(n / 16, k - 1) + [Digit(n % 16)]
  }

  function Parse(s: string): nat
    requires AllHex(s)
  {
    if s == "" then 0 else 16 * Parse(s[..|s| - 1]) + DigitValue(s[|s| - 1])
  }

  function UpperChar(c: char): char {
    if 'a' <= c <= 'f' then 'A' + (((c as int) - ('a' as int)) as char) else c
  }

  /** Upper-cases the hexadecimal letters. */
  function Upper(s: string): string {
    seq(|s|, i requires 0 <= i < |s| => UpperChar(s[i]))
  }

  /** Digits are printed in upper case and read in both. */
  lemma DigitForms(d: nat)
    requires d < 16
    ensures Digit(d) == "0123456789ABCDEF"[d]
    ensures IsHexDigit("0123456789abcdef"[d]) && DigitValue("0123456789abcdef"[d]) == d
    ensures UpperChar("0123456789abcdef"[d]) == "0123456789ABCDEF"[d]
  {
  }

  lemma {:induction false} ParseBound(s: string)
    requires AllHex(s)
    ensures Parse(s) < Pow16(|s|)
  {
    if s != "" {
      ParseBound(s[..|s| - 1]);
    }
  }

  lemma {:induction false} ParsePrint(n: nat, k: nat)
    requires n < Pow16(k)
    ensures Parse(Print(n, k)) == n
    decreases k
  {
    if k > 0 {
      ParsePrint(n / 16, k - 1);
      var s := Print(n, k);
      assert s[..k - 1] == Print(n / 16, k - 1);
    }
  }

  lemma DigitOfValue(c: char)
    requires IsHexDigit(c)
    ensures Digit(DigitValue(c)) == UpperChar(c)
  {
  }

  lemma {:induction false} PrintParse(s: string)
    requires AllHex(s)
    ensures Print(Parse(s), |s|) == Upper(s)
  {
    hide Digit, DigitValue, UpperChar, IsHexDigit;
    if s != "" {
      var init, last := s[..|s| - 1], s[|s| - 1];
      PrintParse(init);
      DigitOfValue(last);
      assert Parse(s) / 16 == Parse(init) && Parse(s) % 16 == DigitValue(last);
      assert Upper(s) == Upper(init) + [UpperChar(last)];
    }
  }

  /** Numbers of one width compare as their printed forms do. */
  lemma {:induction false} PrintOrder(m: nat, n: nat, k: nat)
    requires m < Pow16(k) && n < Pow16(k)
    ensures StrLess(Print(m, k), Print(n, k)) <==> m < n
    decreases k
  {
    if k > 0 {
      PrintOrder(m / 16, n / 16, k - 1);
      var x, y := [Digit(m % 16)], [Digit(n % 16)];
      StrLessConcat(Print(m / 16, k - 1), x, Print(n / 16, k - 1), y);
      DigitOrder(m % 16, n % 16);
      assert StrLess(x, y) <==> x[0] < y[0];
      if m / 16 != n / 16 {
        PrintInjective(m / 16, n / 16, k - 1);
      }
    }
  }

  lemma DigitOrder(d: nat, e: nat)
    requires d < 16 && e < 16
    ensures Digit(d) < Digit(e) <==> d < e
  {
  }

  lemma PrintInjective(m: nat, n: nat, k: nat)
    requires m < Pow16(k) && n < Pow16(k)
    ensures Print(m, k) == Print(n, k) <==> m == n
  {
    ParsePrint(m, k);
    ParsePrint(n, k);
  }

  lemma Pow16Of8()
    ensures Pow16(7) == 0x1000_0000 && Pow16(8) == 0x1_0000_0000
  {
    assert Pow16(2) == 0x100;
    assert Pow16(4) == 0x1_0000;
    assert Pow16(6) == 0x100_0000;
  }

  /** A number is in the lower half of its range exactly when its leading digit is below eight. */
  lemma {:induction false} LeadingDigit(s: string)
    requires s != "" && AllHex(s)
    ensures Parse(s) < 8 * Pow16(|s| - 1) <==> s[0] < '8'
  {
    var init := s[..|s| - 1];
    if init == "" {
      assert Parse(init) == 0;
    } else {
      LeadingDigit(init);
    }
  }
}
