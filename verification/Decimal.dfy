/** Base-10 printing and parsing within int64, as strconv does it. */
module Decimal {
  import opened Text

  const MAX_INT64 := 0x7fff_ffff_ffff_ffff
  const MIN_INT64 := -0x8000_0000_0000_0000

  predicate IsDigit(c: char) {
    '0' <= c <= '9'
  }

  predicate AllDigits(s: string) {
    forall i :: 0 <= i < |s| ==> IsDigit(s[i])
  }

  function DigitOf(d: nat): (c: char)
    requires d < 10
    ensures IsDigit(c) && c as int - '0' as int == d
  {
    ('0' as int + d) as char
  }

  /** The number a digit string denotes; "" denotes 0. */
  function ValueOf(s: string): (v: nat)
    requires AllDigits(s)
  {
    if s == "" then 0 else 10 * ValueOf(s[..|s| - 1]) + (s[|s| - 1] as int - '0' as int)
  }

  function PrintNat(n: nat): (s: string) {
    if n < 10 then [DigitOf(n)] else PrintNat(n / 10) + [DigitOf(n % 10)]
  }

  /** strconv.Itoa and FormatInt. */
  function Print(n: int): string {
    if n < 0 then "-" + PrintNat(-n) else PrintNat(n)
  }

  /** strconv.ParseInt(s, 10, 64), and Atoi on a 64-bit platform: an optional sign, at least
      one digit, nothing else, and a value that fits. */
  function Parse(s: string): Option<int> {
    var negative := s != "" && s[0] == '-';
    var digits := if s != "" && (s[0] == '-' || s[0] == '+') then s[1..] else s;
    if digits == "" || !AllDigits(digits) then None
    else
      var v: int := if negative then -(ValueOf(digits) as int) else ValueOf(digits);
      if MIN_INT64 <= v <= MAX_INT64 then Some(v) else None
  }

  lemma {:induction false} PrintNatValue(n: nat)
    ensures PrintNat(n) != "" && AllDigits(PrintNat(n))
    ensures ValueOf(PrintNat(n)) == n
  {
    if n >= 10 {
      PrintNatValue(n / 10);
      var s := PrintNat(n);
      assert s[..|s| - 1] == PrintNat(n / 10);
    }
  }

  /** A number is printed in digits alone, with a minus before it if it is negative and no zero before
      it unless it is 0. */
  lemma PrintForm(n: int)
    ensures n >= 0 ==> AllDigits(Print(n)) && Print(n) != "" && (Print(n)[0] == '0' <==> n == 0)
    ensures n < 0 ==> Print(n) == "-" + Print(-n)
    ensures Print(0) == "0"
  {
    if n >= 0 {
      PrintNatValue(n);
      PrintNatFirst(n);
    }
  }

  lemma {:induction false} PrintNatFirst(n: nat)
    ensures PrintNat(n) != "" && (PrintNat(n)[0] == '0' <==> n == 0)
  {
    if n >= 10 {
      PrintNatFirst(n / 10);
    }
  }

  /** Which texts are numbers, exactly: digits, perhaps after one sign, with a value in range. */
  lemma ParseDigits(s: string)
    requires s != "" && AllDigits(s)
    ensures Parse(s) == if ValueOf(s) < 0x8000_0000_0000_0000 then Some(ValueOf(s)) else None
    ensures Parse("+" + s) == Parse(s)
    ensures Parse("-" + s) == if ValueOf(s) <= 0x8000_0000_0000_0000 then Some(-(ValueOf(s) as int)) else None
  {
    assert IsDigit(s[0]);
    assert ("-" + s)[1..] == s && ("+" + s)[1..] == s;
  }

  lemma ParseOnlyDigits(s: string)
    requires Parse(s).Some?
    ensures exists t :: t != "" && AllDigits(t) && s in {t, "+" + t, "-" + t}
  {
    if s[0] == '-' || s[0] == '+' {
      assert s == [s[0]] + s[1..];
      assert s[1..] != "" && AllDigits(s[1..]);
    }
  }

  /** Parsing inverts printing on every int64. */
  lemma ParsePrint(n: int)
    requires MIN_INT64 <= n <= MAX_INT64
    ensures Parse(Print(n)) == Some(n)
  {
    hide Parse;
    hide ValueOf;
    hide PrintNat;
    var m := if n < 0 then -n else n;
    PrintNatValue(m);
    ParseDigits(PrintNat(m));
  }

  /** A printed integer holds digits and perhaps a leading minus sign: no separator. */
  lemma PrintAlphabet(n: int, c: char)
    requires !IsDigit(c) && c != '-'
    ensures c !in Print(n)
  {
    PrintNatValue(if n < 0 then -n else n);
  }

  lemma PrintInjective(m: int, n: int)
    requires Print(m) == Print(n)
    ensures m == n
  {
    PrintNatValue(if m < 0 then -m else m);
    PrintNatValue(if n < 0 then -n else n);
    assert IsDigit(PrintNat(if m < 0 then -m else m)[0]);
    assert IsDigit(PrintNat(if n < 0 then -n else n)[0]);
    if m < 0 {
      assert Print(m)[0] == '-';
      assert Print(n)[1..] == PrintNat(-n);
      assert Print(m)[1..] == PrintNat(-m);
    }
  }

  function Pow10(k: nat): (p: nat)
    ensures p > 0
  {
    if k == 0 then 1 else 10 * Pow10(k - 1)
  }
}
