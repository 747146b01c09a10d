/** Decimal text: what `std::to_string`, `operator<<`, `strtoull` and `std::stol` do with it. */
module Decimal {
  import opened BitOps

  predicate IsDigit(c: char) {
    '0' <= c <= '9'
  }

  function Digit(d: nat): (c: char)
    requires d < 10
    ensures IsDigit(c) && c as int - '0' as int == d
  {
    '0' + d as char
  }

  function Print(n: nat): (s: string)
    ensures s != [] && IsDigit(s[0])
  {
    if n < 10 then [Digit(n)] else Print(n / 10) + [Digit(n % 10)]
  }

  function PrintInt(n: int): string {
    if n < 0 then "-" + Print(-n) else Print(n)
  }

  /** Reads digits until the first character that is not one. */
  function ParseDigits(acc: nat, s: string): nat
    decreases |s|
  {
    if s == [] || !IsDigit(s[0]) then acc
    else ParseDigits(10 * acc + (s[0] as int - '0' as int), s[1..])
  }

  predicate IsSpace(c: char) {
    c == ' ' || '\t' <= c <= '\r'
  }

  /** Leading white space, an optional sign, digits: the common grammar of `strtoull` and `std::stol`. */
  function ParseInt(s: string): int {
    if s == [] then 0
    else if IsSpace(s[0]) then ParseInt(s[1..])
    else if s[0] == '-' then -(ParseDigits(0, s[1..]) as int)
    else if s[0] == '+' then ParseDigits(0, s[1..])
    else ParseDigits(0, s)
  }

  /** `strtoull(s, &end, 10)`: saturates above 2^64 - 1 and negates modulo 2^64. */
  function Strtoull(s: string): (n: nat)
    ensures n < TWO_64
  {
    var v := ParseInt(s);
    if v >= TWO_64 || v <= -TWO_64 then TWO_64 - 1 else v % TWO_64
  }

  lemma {:induction false} ParseDigitsAppend(acc: nat, s: string, d: nat)
    requires d < 10
    requires forall i :: 0 <= i < |s| ==> IsDigit(s[i])
    ensures ParseDigits(acc, s + [Digit(d)]) == 10 * ParseDigits(acc, s) + d
    decreases |s|
  {
    if s == [] {
      assert [Digit(d)][1..] == [];
    } else {
      assert (s + [Digit(d)])[1..] == s[1..] + [Digit(d)];
      ParseDigitsAppend(10 * acc + (s[0] as int - '0' as int), s[1..], d);
    }
  }

  lemma {:induction false} ParsePrint(n: nat)
    ensures ParseDigits(0, Print(n)) == n
    ensures forall i :: 0 <= i < |Print(n)| ==> IsDigit(Print(n)[i])
  {
    if n < 10 {
      assert [Digit(n)][1..] == [];
    } else {
      ParsePrint(n / 10);
      ParseDigitsAppend(0, Print(n / 10), n % 10);
    }
  }

  /** Printing then parsing gives the number back, negative ones included. */
  lemma ParsePrintInt(n: int)
    ensures ParseInt(PrintInt(n)) == n
  {
    ParsePrint(if n < 0 then -n else n);
    if n < 0 {
      assert PrintInt(n)[1..] == Print(-n);
    }
  }

  lemma StrtoullPrint(n: nat)
    requires n < TWO_64
    ensures Strtoull(Print(n)) == n
  {
    ParsePrintInt(n);
  }
}
