/**
 Prices travel as decimal strings: a NUMERIC column prints a fractional part, which every
 consumer cuts off before handing the rest to big.Int.SetString(_, 10).
 */
module Decimal {
  import opened Outcomes

  predicate IsDigit(c: char) { '0' <= c <= '9' }

  predicate AllDigits(s: string) { forall i :: 0 <= i < |s| ==> IsDigit(s[i]) }

  function DigitValue(c: char): nat
    requires IsDigit(c)
  {
    c as int - '0' as int
  }

  // Cuts at the first decimal point, if there is one.
  function CleanPrice(price: string): string {
    if price == "" then ""
    else if price[0] == '.' then ""
    else [price[0]] + CleanPrice(price[1..])
  }

  function DigitsValue(s: string): nat
    requires AllDigits(s)
  {
    if s == "" then 0 else 10 * DigitsValue(s[..|s| - 1]) + DigitValue(s[|s| - 1])
  }

  // big.Int.SetString(s, 10): an optional sign, then one or more decimal digits.
  function ParseInt(s: string): Option<int> {
    if s == "" then None
    else if s[0] == '-' || s[0] == '+' then
      var body := s[1..];
      if body == "" || !AllDigits(body) then None
      else if s[0] == '-' then Some(-(DigitsValue(body) as int))
      else Some(DigitsValue(body))
    else if AllDigits(s) then Some(DigitsValue(s))
    else None
  }

  function PriceOf(price: string): Option<int> { ParseInt(CleanPrice(price)) }

  // The decimal notation of n.
  function Notation(n: nat): (s: string)
    ensures s != "" && AllDigits(s)
  {
    if n < 10 then [('0' as int + n) as char]
    else Notation(n / 10) + [('0' as int + n % 10) as char]
  }

  lemma {:induction false} DigitsValueNotation(n: nat)
    ensures DigitsValue(Notation(n)) == n
  {
    if n >= 10 {
      var s := Notation(n);
      DigitsValueNotation(n / 10);
      assert s[..|s| - 1] == Notation(n / 10);
    }
  }

  lemma {:induction false} CleanPriceStops(whole: string, rest: string)
    requires AllDigits(whole)
    ensures CleanPrice(whole + "." + rest) == whole
    ensures CleanPrice(whole) == whole
  {
    var price := whole + "." + rest;
    if whole == "" {
      assert price[0] == '.';
    } else {
      assert price[0] == whole[0];
      assert price[1..] == whole[1..] + "." + rest;
      CleanPriceStops(whole[1..], rest);
    }
  }

  // Whatever fraction the column prints, the price read back is the whole amount written.
  lemma PriceRoundTrip(n: nat, fraction: string)
    ensures PriceOf(Notation(n) + "." + fraction) == Some(n)
    ensures PriceOf(Notation(n)) == Some(n)
  {
    CleanPriceStops(Notation(n), fraction);
    DigitsValueNotation(n);
    assert IsDigit(Notation(n)[0]);
  }

  lemma {:induction false} CleanPriceKeeps(whole: string, rest: string)
    requires forall i :: 0 <= i < |whole| ==> whole[i] != '.'
    ensures CleanPrice(whole) == whole && CleanPrice(whole + "." + rest) == whole
  {
    var price := whole + "." + rest;
    if whole == "" {
      assert price[0] == '.';
    } else {
      assert price[0] == whole[0];
      assert price[1..] == whole[1..] + "." + rest;
      CleanPriceKeeps(whole[1..], rest);
    }
  }

  // A sign before the digits is read; nothing before the point, or anything else there, is no price.
  lemma OtherPrices(n: nat, whole: string, i: nat, fraction: string)
    requires i < |whole| && whole[i] != '-' && whole[i] != '+' && !('0' <= whole[i] <= '9')
    requires forall j :: 0 <= j < |whole| ==> whole[j] != '.'
    ensures PriceOf("-" + Notation(n) + "." + fraction) == Some(0 - n)
    ensures PriceOf("+" + Notation(n)) == Some(n)
    ensures PriceOf("") == None && PriceOf("." + fraction) == None && PriceOf("-." + fraction) == None
    ensures PriceOf(whole) == None && PriceOf(whole + "." + fraction) == None
  {
    SignedPrice("-", n, fraction);
    SignedPrice("+", n, fraction);
    CleanPriceKeeps("", fraction);
    CleanPriceKeeps("-", fraction);
    CleanPriceKeeps(whole, fraction);
    assert "" + "." + fraction == "." + fraction && "-" + "." + fraction == "-." + fraction;
    if whole[0] == '-' || whole[0] == '+' {
      assert whole[1..][i - 1] == whole[i];
    }
  }

  lemma SignedPrice(sign: string, n: nat, fraction: string)
    requires sign == "-" || sign == "+"
    ensures PriceOf(sign + Notation(n) + "." + fraction) == Some(if sign == "-" then 0 - n else n)
    ensures PriceOf(sign + Notation(n)) == Some(if sign == "-" then 0 - n else n)
  {
    var whole := sign + Notation(n);
    assert forall i :: 1 <= i < |whole| ==> whole[i] == Notation(n)[i - 1] && IsDigit(Notation(n)[i - 1]);
    CleanPriceKeeps(whole, fraction);
    assert whole[1..] == Notation(n);
    DigitsValueNotation(n);
  }
}
