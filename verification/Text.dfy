/** Text: the order in which it sorts and the decimal notation of numbers. */
module Text {

  /** The order in which text sorts: by the first differing character, a proper prefix first. */
  predicate TextLess(a: string, b: string) {
    if b == "" then false
    else if a == "" then true
    else a[0] < b[0] || (a[0] == b[0] && TextLess(a[1..], b[1..]))
  }

  lemma {:induction false} TextOrder(a: string, b: string, c: string)
    ensures !TextLess(a, a)
    ensures TextLess(a, b) ==> !TextLess(b, a)
    ensures a != b ==> TextLess(a, b) || TextLess(b, a)
    ensures TextLess(a, b) && TextLess(b, c) ==> TextLess(a, c)
    decreases |a|
  {
    if a != "" {
      TextOrder(a[1..], if b == "" then "" else b[1..], if c == "" then "" else c[1..]);
      assert a == [a[0]] + a[1..];
      assert b != "" ==> b == [b[0]] + b[1..];
    }
  }

  function Digit(d: nat): (c: char)
    requires d < 10
    ensures '0' <= c <= '9'
    ensures forall e: nat | e < d :: Digit(e) < c
  {
    ['0', '1', '2', '3', '4', '5', '6', '7', '8', '9'][d]
  }

  ghost predicate AllDigits(s: string) {
    forall i | 0 <= i < |s| :: '0' <= s[i] <= '9'
  }

  function Decimal(n: nat): (s: string)
    ensures AllDigits(s)
  {
    (if n < 10 then "" else Decimal(n / 10)) + [Digit(n % 10)]
  }

  lemma DecimalDigits(n: nat)
    ensures |Decimal(n)| >= 1 && (|Decimal(n)| == 1 <==> n < 10)
  {
  }

  function DecimalHead(n: nat): string {
    if n < 10 then "" else Decimal(n / 10)
  }

  lemma SameDecimal(m: nat, n: nat)
    requires Decimal(m) == Decimal(n)
    ensures DecimalHead(m) == DecimalHead(n) && m % 10 == n % 10
  {
    var a, b := Decimal(m), Decimal(n);
    assert a == DecimalHead(m) + [Digit(m % 10)] && b == DecimalHead(n) + [Digit(n % 10)];
    assert a[..|a| - 1] == DecimalHead(m) && b[..|b| - 1] == DecimalHead(n);
    assert a[|a| - 1] == Digit(m % 10) && b[|b| - 1] == Digit(n % 10);
  }

  lemma {:induction false} DecimalIsInjective(m: nat, n: nat)
    requires Decimal(m) == Decimal(n)
    ensures m == n
  {
    SameDecimal(m, n);
    DecimalDigits(m);
    DecimalDigits(n);
    if m >= 10 {
      DecimalIsInjective(m / 10, n / 10);
    }
  }
}
