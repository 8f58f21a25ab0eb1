// Numbers as text, and texts joined by separators.
//
// Decimal numbers contain neither colons nor newlines and determine the number they stand for,
// which is what makes texts built from them unambiguous; a text is split at its first colon, and
// joining is described part by part.
module Text {
  import opened Seqs

  const DIGITS: string := "0123456789"

  function Digits(n: nat): (s: string)
    ensures s != "" && s[0] != '-'
    ensures '\n' !in s && ':' !in s
  {
    if n < 10 then [DIGITS[n]] else Digits(n / 10) + [DIGITS[n % 10]]
  }

  function Decimal(n: int): (s: string)
    ensures '\n' !in s && ':' !in s
  {
    if n < 0 then "-" + Digits(-n) else Digits(n)
  }

  lemma LongDigits(n: nat)
    ensures |Digits(n)| == 1 <==> n < 10
  {
  }

  lemma {:induction false} DigitsUnique(a: nat, b: nat)
    requires Digits(a) == Digits(b)
    ensures a == b
  {
    var s := Digits(a);
    if a < 10 || b < 10 {
      LongDigits(a);
      LongDigits(b);
    } else {
      assert Front(s) == Digits(a / 10) && Front(s) == Digits(b / 10);
      DigitsUnique(a / 10, b / 10);
      assert Last(s) == DIGITS[a % 10] && Last(s) == DIGITS[b % 10];
    }
  }

  lemma SignDiffers(a: int, b: int)
    requires (a < 0) != (b < 0)
    ensures Decimal(a) != Decimal(b)
  {
    assert Decimal(if a < 0 then a else b)[0] == '-';
  }

  lemma DecimalUnique(a: int, b: int)
    requires Decimal(a) == Decimal(b)
    ensures a == b
  {
    if a < 0 && b < 0 {
      assert Decimal(a)[1..] == Digits(-a) && Decimal(b)[1..] == Digits(-b);
      DigitsUnique(-a, -b);
    } else if a >= 0 && b >= 0 {
      DigitsUnique(a, b);
    } else {
      SignDiffers(a, b);
    }
  }

  /** The parts with a separator between any two. */
  function JoinWith(separator: string, parts: seq<string>): string {
    if parts == [] then ""
    else if |parts| == 1 then parts[0]
    else parts[0] + separator + JoinWith(separator, parts[1..])
  }

  lemma {:induction false} JoinMore(separator: string, parts: seq<string>, part: string)
    ensures JoinWith(separator, parts + [part]) ==
      if parts == [] then part else JoinWith(separator, parts) + (separator + part)
  {
    if |parts| > 0 {
      assert (parts + [part])[1..] == parts[1..] + [part];
      JoinMore(separator, parts[1..], part);
    }
  }

  /** The text before the first colon, and the one after it, are determined. */
  lemma BeforeColon(a: string, restA: string, b: string, restB: string)
    requires ':' !in a && ':' !in b && a + ":" + restA == b + ":" + restB
    ensures a == b && restA == restB
  {
    var s := a + ":" + restA;
    assert s[|a|] == ':' && s[|b|] == ':';
    assert forall i :: 0 <= i < |a| ==> s[i] == a[i] && a[i] in a;
    assert forall i :: 0 <= i < |b| ==> s[i] == b[i] && b[i] in b;
    assert a == s[..|a|] && b == s[..|b|] && restA == s[|a| + 1..] && restB == s[|b| + 1..];
  }
}
