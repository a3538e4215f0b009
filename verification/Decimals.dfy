/** Numbers written in decimal. */
module Decimals {
  predicate Digits(s: string) {
    s != "" && forall i | 0 <= i < |s| :: '0' <= s[i] <= '9'
  }

  function Number(digits: string): nat {
    if digits == "" then 0
    else
      var c := digits[|digits| - 1];
      10 * Number(digits[..|digits| - 1]) + if '0' <= c <= '9' then c as nat - '0' as nat else 0
  }

  function Decimal(n: nat): string {
    if n < 10 then [n as char + '0'] else Decimal(n / 10) + [(n % 10) as char + '0']
  }

  /** A number is written in digits, without a leading zero, and read back. */
  lemma {:induction false} DecimalReads(n: nat)
    ensures Digits(Decimal(n)) && Number(Decimal(n)) == n
    ensures Decimal(n)[0] == '0' ==> n == 0 && |Decimal(n)| == 1
  {
    if n >= 10 {
      DecimalReads(n / 10);
      var d := Decimal(n);
      assert d[..|d| - 1] == Decimal(n / 10);
    }
  }

  /** Digits without a leading zero are how their number is written. */
  lemma {:induction false} NumberWrites(s: string)
    requires Digits(s) && (|s| == 1 || s[0] != '0')
    ensures Decimal(Number(s)) == s
    ensures s[0] != '0' ==> Number(s) > 0
  {
    hide Decimal;
    var n := |s| - 1;
    assert s == s[..n] + [s[n]];
    if n == 0 {
      OneDigit(s[0]);
    } else {
      NumberWrites(s[..n]);
      DecimalSnoc(Number(s[..n]), s[n]);
    }
  }

  lemma OneDigit(c: char)
    requires '0' <= c <= '9'
    ensures Number([c]) == c as nat - '0' as nat && Decimal(c as nat - '0' as nat) == [c]
  {
    assert [c][..0] == "" && Number("") == 0;
  }

  lemma DecimalSnoc(x: nat, c: char)
    requires x > 0 && '0' <= c <= '9'
    ensures Decimal(10 * x + (c as nat - '0' as nat)) == Decimal(x) + [c]
  {
    var n := 10 * x + (c as nat - '0' as nat);
    assert n / 10 == x && n % 10 == c as nat - '0' as nat;
  }
}
