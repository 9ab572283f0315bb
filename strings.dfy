/**
 * Python's ordering of `str` values and its `int()` conversion of a
 * decimal string, as far as the backup loader relies on them.
 */
module Strings {
  import opened Wrappers

  /** Python's `a <= b` on `str`: code points compared left to right, a proper prefix first. */
  predicate LexLe(a: string, b: string)
  {
    |a| == 0 || (|b| > 0 && (a[0] < b[0] || (a[0] == b[0] && LexLe(a[1..], b[1..]))))
  }

  lemma {:induction false} LexLeReflexive(a: string)
    ensures LexLe(a, a)
  {
    if |a| > 0 {
      LexLeReflexive(a[1..]);
    }
  }

  lemma {:induction false} LexLeTotal(a: string, b: string)
    ensures LexLe(a, b) || LexLe(b, a)
  {
    if |a| > 0 && |b| > 0 && a[0] == b[0] {
      LexLeTotal(a[1..], b[1..]);
    }
  }

  lemma {:induction false} LexLeAntisymmetric(a: string, b: string)
    requires LexLe(a, b) && LexLe(b, a)
    ensures a == b
  {
    if |a| > 0 {
      LexLeAntisymmetric(a[1..], b[1..]);
      assert a == [a[0]] + a[1..];
      assert b == [b[0]] + b[1..];
    }
  }

  lemma {:induction false} LexLeTransitive(a: string, b: string, c: string)
    requires LexLe(a, b) && LexLe(b, c)
    ensures LexLe(a, c)
  {
    if |a| > 0 && a[0] == b[0] && b[0] == c[0] {
      LexLeTransitive(a[1..], b[1..], c[1..]);
    }
  }

  /** A prefix never sorts after the string it starts. */
  lemma {:induction false} PrefixLexLe(a: string, b: string)
    requires a <= b
    ensures LexLe(a, b)
  {
    if |a| > 0 {
      assert a[1..] <= b[1..];
      PrefixLexLe(a[1..], b[1..]);
    }
  }

  /** Position strings do not compare as the numbers they spell: "10" sorts before "2". */
  lemma StringOrderIsNotNumeric()
    ensures LexLe("10", "2") && !LexLe("2", "10")
  {
  }

  predicate IsDigit(c: char)
  {
    '0' <= c <= '9'
  }

  predicate AllDigits(s: string)
  {
    forall i :: 0 <= i < |s| ==> IsDigit(s[i])
  }

  /** The number that a string of decimal digits spells. */
  function DigitsValue(s: string): nat
    requires AllDigits(s)
  {
    if s == [] then 0 else DigitsValue(s[..|s| - 1]) * 10 + (s[|s| - 1] as int - '0' as int)
  }

  /**
   * `int(s)` for the literals a backup holds: an optional sign followed by at
   * least one decimal digit; anything else is `None` (Python's ValueError).
   */
  function ParseInt(s: string): (r: Option<int>)
    ensures r.Some? ==> |s| > 0
    ensures r.Some? && r.value < 0 ==> s[0] == '-'
    ensures r.Some? <==>
      (|s| > 0 && AllDigits(s)) || (|s| > 1 && (s[0] == '+' || s[0] == '-') && AllDigits(s[1..]))
    ensures AllDigits(s) ==> r == (if |s| > 0 then Some(DigitsValue(s)) else None)
    ensures |s| > 1 && (s[0] == '+' || s[0] == '-') && AllDigits(s[1..]) ==>
      r == Some(if s[0] == '-' then -(DigitsValue(s[1..]) as int) else DigitsValue(s[1..]))
  {
    if |s| > 0 && (s[0] == '-' || s[0] == '+') then
      if |s| > 1 && AllDigits(s[1..]) then
        var magnitude: int := DigitsValue(s[1..]);
        Some(if s[0] == '-' then -magnitude else magnitude)
      else
        None
    else if |s| > 0 && AllDigits(s) then
      Some(DigitsValue(s))
    else
      None
  }

  /** `str(n)` for a natural number. */
  function Decimal(n: nat): (s: string)
    ensures |s| > 0 && AllDigits(s)
  {
    var d := ['0' + (n % 10) as char];
    if n < 10 then d else Decimal(n / 10) + d
  }

  /** `str(i)` for any integer. */
  function FormatInt(i: int): string
  {
    if i < 0 then "-" + Decimal(-i) else Decimal(i)
  }

  lemma {:induction false} DecimalValue(n: nat)
    ensures DigitsValue(Decimal(n)) == n
  {
    var s := Decimal(n);
    if n >= 10 {
      DecimalValue(n / 10);
      assert s[..|s| - 1] == Decimal(n / 10);
    }
  }

  /** Every integer survives `int(str(i))`. */
  lemma ParseFormatInt(i: int)
    ensures ParseInt(FormatInt(i)) == Some(i)
  {
    if i < 0 {
      var s := FormatInt(i);
      assert s[1..] == Decimal(-i);
      DecimalValue(-i);
    } else {
      DecimalValue(i);
    }
  }
}
