/** Numbers as digits: reading undoes writing, and for equal lengths text order is number order. */
module Digits {
  import opened Text

  predicate AllDigits(s: string) {
    forall i | 0 <= i < |s| :: IsDigit(s[i])
  }

  lemma {:induction false} LeqConcat(a: string, b: string, x: string, y: string)
    requires |a| == |b|
    ensures Leq(a + x, b + y) <==> if a == b then Leq(x, y) else Leq(a, b)
  {
    if a == "" {
      assert a + x == x && b + y == y;
    } else {
      assert (a + x)[1..] == a[1..] + x && (b + y)[1..] == b[1..] + y;
      assert a == [a[0]] + a[1..] && b == [b[0]] + b[1..];
      LeqConcat(a[1..], b[1..], x, y);
    }
  }

  lemma {:induction false} LeqIsNumeric(a: string, b: string)
    requires |a| == |b| && AllDigits(a) && AllDigits(b)
    ensures Leq(a, b) <==> DigitsValue(a) <= DigitsValue(b)
    ensures DigitsValue(a) == DigitsValue(b) <==> a == b
  {
    if a != "" {
      var n := |a| - 1;
      LeqIsNumeric(a[..n], b[..n]);
      assert a == a[..n] + [a[n]] && b == b[..n] + [b[n]];
      assert IsDigit(a[n]) && IsDigit(b[n]);
      LeqConcat(a[..n], b[..n], [a[n]], [b[n]]);
      assert Leq([a[n]], [b[n]]) <==> a[n] <= b[n];
    }
  }

  lemma {:induction false} DecimalValue(n: nat)
    ensures DigitsValue(Decimal(n)) == n
  {
    var digit := [('0' as int + n % 10) as char];
    if n < 10 {
      assert digit[..0] == "";
    } else {
      DecimalValue(n / 10);
      assert Decimal(n)[..|Decimal(n)| - 1] == Decimal(n / 10);
    }
  }

  lemma TwoDigits(s: string)
    requires AllDigits(s) && |s| == 2
    ensures DigitsValue(s) < 100
  {
    assert IsDigit(s[0]) && IsDigit(s[1]);
    assert s[..1][..0] == "" && DigitsValue(s[..1]) == s[0] as int - '0' as int;
  }
}
