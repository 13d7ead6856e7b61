/** Decimal numerals and splitting text at separators. */
module Numerals {
  import opened Text

  predicate IsDigit(c: char) {
    '0' <= c <= '9'
  }

  predicate AllDigits(s: string) {
    forall i :: 0 <= i < |s| ==> IsDigit(s[i])
  }

  predicate IsNumber(s: string) {
    s != "" && AllDigits(s)
  }

  function DigitRun(s: string): (n: nat)
    ensures n <= |s| && forall i :: 0 <= i < n ==> IsDigit(s[i])
  {
    if s == "" || !IsDigit(s[0]) then 0 else 1 + DigitRun(s[1..])
  }

  function Number(digits: string): nat
    requires AllDigits(digits)
  {
    if digits == "" then 0
    else
      var last := digits[|digits| - 1];
      assert IsDigit(last);
      Number(digits[..|digits| - 1]) * 10 + (last as int - 48)
  }

  function Decimal(n: nat): string {
    if n < 10 then [(48 + n) as char] else Decimal(n / 10) + [(48 + n % 10) as char]
  }

  lemma {:induction false} DecimalDigits(n: nat)
    ensures Decimal(n) != "" && AllDigits(Decimal(n)) && Number(Decimal(n)) == n
    ensures Decimal(n)[0] == '0' ==> n == 0
  {
    if n >= 10 {
      DecimalDigits(n / 10);
      var d := Decimal(n);
      assert d[..|d| - 1] == Decimal(n / 10);
    } else {
      assert Decimal(n)[..0] == "";
    }
  }

  lemma {:induction false} DigitRunIs(digits: string, tail: string)
    requires AllDigits(digits) && DigitRun(tail) == 0
    ensures DigitRun(digits + tail) == |digits|
    decreases |digits|
  {
    if digits == "" {
      assert digits + tail == tail;
    } else {
      assert (digits + tail)[1..] == digits[1..] + tail;
      DigitRunIs(digits[1..], tail);
    }
  }

  lemma DigitRunStops(s: string)
    ensures DigitRun(s) < |s| ==> !IsDigit(s[DigitRun(s)])
  {
  }

  /** No leading zero, except zero itself. */
  predicate IsNumeral(s: string) {
    s != "" && AllDigits(s) && (s[0] == '0' ==> s == "0")
  }

  lemma {:induction false} NumeralIsDecimal(s: string)
    requires IsNumeral(s)
    ensures Decimal(Number(s)) == s
    ensures s != "0" ==> Number(s) > 0
    decreases |s|
  {
    var n, last := |s| - 1, s[|s| - 1];
    assert IsDigit(last);
    assert s == s[..n] + [last];
    if n > 0 {
      assert s[..n][0] == s[0];
      NumeralIsDecimal(s[..n]);
      assert Number(s) / 10 == Number(s[..n]) && Number(s) % 10 == last as int - 48;
    } else {
      assert s[..0] == "";
    }
  }

  // ----- splitting -----

  /** The parts between single-character separators, empty ones included. */
  function Split(s: string, separators: string): (parts: seq<string>)
    ensures |parts| >= 1
    decreases |s|
  {
    var i := Find(s, separators);
    if i == |s| then [s] else [s[..i]] + Split(s[i + 1..], separators)
  }

  lemma SplitFirst(a: string, c: char, rest: string, separators: string)
    requires forall i :: 0 <= i < |a| ==> a[i] !in separators
    requires c in separators
    ensures Split(a + ([c] + rest), separators) == [a] + Split(rest, separators)
  {
    var s := a + ([c] + rest);
    FindIs(a, [c] + rest, separators);
    assert s[..|a|] == a && s[|a| + 1..] == rest;
  }

  lemma SplitLast(a: string, separators: string)
    requires forall i :: 0 <= i < |a| ==> a[i] !in separators
    ensures Split(a, separators) == [a]
  {
    FindIs(a, "", separators);
    assert a + "" == a;
  }

  /** Joining the parts with the separator gives the text back. */
  lemma {:induction false} SplitJoins(s: string, c: char)
    ensures Join(Split(s, [c]), c) == s
    decreases |s|
  {
    var i := Find(s, [c]);
    if i < |s| {
      SplitJoins(s[i + 1..], c);
      assert Split(s, [c])[1..] == Split(s[i + 1..], [c]);
      assert s == s[..i] + ([c] + s[i + 1..]);
    }
  }

  function Join(parts: seq<string>, c: char): string
    requires parts != []
  {
    if |parts| == 1 then parts[0] else parts[0] + ([c] + Join(parts[1..], c))
  }
}
