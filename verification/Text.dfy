/** Strings: searching, splitting and decimal numerals, as Python's str methods give them. */
module Text {
  datatype Option<+T> = None | Some(value: T)

  /** Position of the first `c` in `s`, or |s| when there is none. */
  function Find(s: string, c: char): (i: nat)
    ensures i <= |s| && c !in s[..i]
    ensures i < |s| ==> s[i] == c
  {
    if s == "" || s[0] == c then 0 else
      var j := Find(s[1..], c);
      assert s[..1 + j] == [s[0]] + s[1..][..j];
      1 + j
  }

  lemma {:induction false} FindSkips(a: string, c: char, b: string)
    requires c !in a
    ensures Find(a + [c] + b, c) == |a|
  {
    if a == "" {
      assert a + [c] + b == [c] + b;
    } else {
      assert (a + [c] + b)[1..] == a[1..] + [c] + b;
      FindSkips(a[1..], c, b);
    }
  }

  lemma {:induction false} FindAbsent(a: string, c: char)
    requires c !in a
    ensures Find(a, c) == |a|
  {
    if a != "" {
      FindAbsent(a[1..], c);
    }
  }

  /** Decimal numeral of a natural number, as str() and format() write it. */
  function Decimal(n: nat): (s: string)
    ensures |s| > 0 && forall c <- s :: IsDigit(c)
  {
    if n < 10 then [Digit(n)] else Decimal(n / 10) + [Digit(n % 10)]
  }

  function Digit(d: nat): char
    requires d < 10
  {
    '0' + d as char
  }

  predicate IsDigit(c: char) {
    '0' <= c <= '9'
  }

  /** Value of a string of decimal digits, as int() reads it. */
  function Number(s: string): nat
    requires forall c <- s :: IsDigit(c)
  {
    if s == "" then 0 else
      assert IsDigit(s[|s| - 1]);
      Number(s[..|s| - 1]) * 10 + (s[|s| - 1] as int - '0' as int)
  }

  lemma {:induction false} NumberOfDecimal(n: nat)
    ensures Number(Decimal(n)) == n
  {
    var s := Decimal(n);
    if n < 10 {
      assert s[..|s| - 1] == "";
    } else {
      assert s[..|s| - 1] == Decimal(n / 10);
      NumberOfDecimal(n / 10);
    }
  }
}
