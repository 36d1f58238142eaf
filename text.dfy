/** Python's `str(n)` and `int(s)` on decimal integers, and Python's
    ordering of strings (lexicographic by code point). */
module Text {
  import opened Common

  predicate IsDigit(c: char) { '0' <= c <= '9' }

  predicate AllDigits(s: string) { forall i :: 0 <= i < |s| ==> IsDigit(s[i]) }

  function DigitChar(d: nat): (c: char)
    requires d < 10
    ensures IsDigit(c) && DigitValue(c) == d
  {
    ['0', '1', '2', '3', '4', '5', '6', '7', '8', '9'][d]
  }

  function DigitValue(c: char): (d: nat)
    requires IsDigit(c)
    ensures d < 10
  {
    (c as int - '0' as int) as nat
  }

  /** `str(n)` for a non-negative integer: no leading zeros, "0" for zero. */
  function NatToString(n: nat): (s: string)
    ensures |s| > 0 && AllDigits(s)
    ensures s[0] == '0' ==> n == 0
  {
    if n < 10 then [DigitChar(n)] else NatToString(n / 10) + [DigitChar(n % 10)]
  }

  /** `str(i)` for any integer. */
  function IntToString(i: int): (s: string)
    ensures |s| > 0
  {
    if i < 0 then "-" + NatToString(-i) else NatToString(i)
  }

  /** The value of a non-empty string of decimal digits. */
  function ParseDigits(s: string): nat
    requires |s| > 0 && AllDigits(s)
  {
    if |s| == 1 then DigitValue(s[0])
    else ParseDigits(s[..|s| - 1]) * 10 + DigitValue(s[|s| - 1])
  }

  /** `int(s)`: an optional sign followed by at least one decimal digit;
      anything else is Python's ValueError. */
  function ParseInt(s: string): (r: Result<int>)
    ensures r.Err? ==> r.error == ValueError
    ensures r.Ok? && AllDigits(s) && |s| > 0 ==> r.value >= 0
  {
    if |s| > 0 && (s[0] == '-' || s[0] == '+') then
      var digits := s[1..];
      if |digits| > 0 && AllDigits(digits) then
        Ok(if s[0] == '-' then -(ParseDigits(digits) as int) else ParseDigits(digits))
      else Err(ValueError)
    else if |s| > 0 && AllDigits(s) then Ok(ParseDigits(s))
    else Err(ValueError)
  }

  lemma {:induction false} ParseNatToString(n: nat)
    ensures ParseDigits(NatToString(n)) == n
  {
    if n >= 10 {
      var s := NatToString(n);
      assert s[..|s| - 1] == NatToString(n / 10);
      ParseNatToString(n / 10);
    }
  }

  /** `int(str(i)) == i`: the two conversions are inverse. */
  lemma ParseIntToString(i: int)
    ensures ParseInt(IntToString(i)) == Ok(i)
  {
    if i < 0 {
      ParseNatToString(-i);
      ParseIntNegative(NatToString(-i));
    } else {
      ParseNatToString(i);
      ParseIntDigits(NatToString(i));
    }
  }

  /** `int(s)` on a string of plain digits is their value. */
  lemma ParseIntDigits(s: string)
    requires |s| > 0 && AllDigits(s)
    ensures ParseInt(s) == Ok(ParseDigits(s) as int)
  {
    assert IsDigit(s[0]);
  }

  /** `int("-" + s)` on a string of plain digits is minus their value. */
  lemma ParseIntNegative(s: string)
    requires |s| > 0 && AllDigits(s)
    ensures ParseInt("-" + s) == Ok(-(ParseDigits(s) as int))
  {
    assert ("-" + s)[1..] == s;
  }

  function Pow10(n: nat): (p: nat)
    ensures p >= 1
  {
    if n == 0 then 1 else 10 * Pow10(n - 1)
  }

  /** A string of `n` digits is worth less than `10^n`. */
  lemma {:induction false} ParseDigitsBound(s: string)
    requires |s| > 0 && AllDigits(s)
    ensures ParseDigits(s) < Pow10(|s|)
  {
    if |s| > 1 {
      var init := s[..|s| - 1];
      ParseDigitsBound(init);
      assert ParseDigits(init) * 10 <= (Pow10(|s| - 1) - 1) * 10;
    }
  }

  /** The value of a digit string read from its most significant digit. */
  lemma {:induction false} ParseDigitsFront(s: string)
    requires |s| > 1 && AllDigits(s)
    ensures ParseDigits(s) == DigitValue(s[0]) * Pow10(|s| - 1) + ParseDigits(s[1..])
  {
    var init := s[..|s| - 1];
    if |s| == 2 {
      assert init == [s[0]];
      assert s[1..] == [s[1]];
    } else {
      ParseDigitsFront(init);
      var tail := s[1..];
      assert init[1..] == tail[..|tail| - 1];
      assert tail[|tail| - 1] == s[|s| - 1];
      var a, p, m, z := DigitValue(s[0]), Pow10(|s| - 2), ParseDigits(init[1..]), DigitValue(s[|s| - 1]);
      assert ParseDigits(s) == ParseDigits(init) * 10 + z;
      assert ParseDigits(init) == a * p + m;
      assert ParseDigits(tail) == m * 10 + z;
      assert Pow10(|s| - 1) == 10 * p;
      Regroup(a, p, m, z);
    }
  }

  lemma Regroup(a: int, p: int, m: int, z: int)
    ensures (a * p + m) * 10 + z == a * (10 * p) + (m * 10 + z)
  {
  }

  lemma LeadingDigitDecides(da: nat, db: nat, ra: nat, rb: nat, p: nat)
    requires da < db && ra < p
    ensures da * p + ra < db * p + rb
  {
    assert (da + 1) * p <= db * p;
  }

  /** On digit strings of equal length Python's string order is the order of
      their values. */
  lemma {:induction false} StrLtDigits(a: string, b: string)
    requires |a| == |b| > 0 && AllDigits(a) && AllDigits(b)
    ensures StrLt(a, b) <==> ParseDigits(a) < ParseDigits(b)
  {
    var da, db := DigitValue(a[0]), DigitValue(b[0]);
    assert a[0] < b[0] <==> da < db;
    if |a| == 1 {
      assert a[1..] == [] && b[1..] == [];
    } else {
      var p := Pow10(|a| - 1);
      ParseDigitsFront(a);
      ParseDigitsFront(b);
      ParseDigitsBound(a[1..]);
      ParseDigitsBound(b[1..]);
      if da < db {
        LeadingDigitDecides(da, db, ParseDigits(a[1..]), ParseDigits(b[1..]), p);
      } else if db < da {
        LeadingDigitDecides(db, da, ParseDigits(b[1..]), ParseDigits(a[1..]), p);
      } else {
        StrLtDigits(a[1..], b[1..]);
      }
    }
  }

  /** Equal-length digit strings with equal values are equal. */
  lemma StrEqDigits(a: string, b: string)
    requires |a| == |b| > 0 && AllDigits(a) && AllDigits(b)
    ensures a == b <==> ParseDigits(a) == ParseDigits(b)
  {
    StrLtDigits(a, b);
    StrLtDigits(b, a);
    StrLtTotal(a, b);
  }

  /** `str` is injective: distinct integers have distinct string forms. */
  lemma IntToStringInjective(i: int, j: int)
    ensures IntToString(i) == IntToString(j) ==> i == j
  {
    ParseIntToString(i);
    ParseIntToString(j);
  }

  // ---- Python's comparison of strings ----

  /** `a < b` on Python strings: lexicographic by code point, a proper
      prefix being smaller. */
  predicate StrLt(a: string, b: string)
  {
    if a == [] then b != []
    else if b == [] then false
    else if a[0] != b[0] then a[0] < b[0]
    else StrLt(a[1..], b[1..])
  }

  predicate StrLe(a: string, b: string) { a == b || StrLt(a, b) }

  lemma {:induction false} StrLtIrreflexive(a: string)
    ensures !StrLt(a, a)
  {
    if a != [] { StrLtIrreflexive(a[1..]); }
  }

  lemma {:induction false} StrLtTotal(a: string, b: string)
    ensures StrLt(a, b) || a == b || StrLt(b, a)
  {
    if a != [] && b != [] && a[0] == b[0] {
      StrLtTotal(a[1..], b[1..]);
      if a[1..] == b[1..] {
        assert a == [a[0]] + a[1..] && b == [b[0]] + b[1..];
      }
    }
  }

  lemma {:induction false} StrLtTransitive(a: string, b: string, c: string)
    requires StrLt(a, b) && StrLt(b, c)
    ensures StrLt(a, c)
  {
    if a != [] && a[0] == b[0] && b[0] == c[0] {
      StrLtTransitive(a[1..], b[1..], c[1..]);
    }
  }

  lemma {:induction false} StrLtAsymmetric(a: string, b: string)
    requires StrLt(a, b)
    ensures !StrLt(b, a)
  {
    if StrLt(b, a) {
      StrLtTransitive(a, b, a);
      StrLtIrreflexive(a);
    }
  }

  lemma StrLeTransitive(a: string, b: string, c: string)
    requires StrLe(a, b) && StrLe(b, c)
    ensures StrLe(a, c)
  {
    if StrLt(a, b) && StrLt(b, c) { StrLtTransitive(a, b, c); }
  }

  lemma StrLeTotal(a: string, b: string)
    ensures StrLe(a, b) || StrLe(b, a)
  {
    StrLtTotal(a, b);
  }

  lemma StrLeAntisymmetric(a: string, b: string)
    requires StrLe(a, b) && StrLe(b, a)
    ensures a == b
  {
    if a != b { StrLtAsymmetric(a, b); }
  }

  /** Python's `max(xs)` on a non-empty list of strings: the first element
      that is not smaller than any other. */
  function MaxString(xs: seq<string>): (m: string)
    requires |xs| > 0
    ensures m in xs
    ensures forall x :: x in xs ==> StrLe(x, m)
  {
    if |xs| == 1 then xs[0]
    else
      var rest := MaxString(xs[1..]);
      StrLtTotal(xs[0], rest);
      assert forall x :: x in xs ==> x == xs[0] || x in xs[1..];
      forall x | x in xs[1..] ensures StrLe(x, if StrLt(xs[0], rest) then rest else xs[0]) {
        if !StrLt(xs[0], rest) { StrLeTransitive(x, rest, xs[0]); }
      }
      if StrLt(xs[0], rest) then rest else xs[0]
  }
}
