// Decimal.dfy: base-ten integers as strconv writes and reads them.
module Decimal {
  import opened Prelude

  predicate IsDigit(c: char) { '0' <= c <= '9' }

  predicate AllDigits(s: string) { forall i :: 0 <= i < |s| ==> IsDigit(s[i]) }

  function DigitChar(d: int): (c: char)
    requires 0 <= d <= 9
    ensures IsDigit(c) && DigitValue(c) == d
  {
    ['0', '1', '2', '3', '4', '5', '6', '7', '8', '9'][d]
  }

  function DigitValue(c: char): int
    requires IsDigit(c)
  {
    c as int - '0' as int
  }

  // The digits of a natural number, without leading zeros.
  function Digits(n: nat): (s: string)
    ensures s != "" && AllDigits(s)
  {
    if n < 10 then [DigitChar(n)] else Digits(n / 10) + [DigitChar(n % 10)]
  }

  function Value(s: string): nat
    requires AllDigits(s)
  {
    if s == "" then 0 else Value(s[..|s| - 1]) * 10 + DigitValue(s[|s| - 1])
  }

  function Zeros(n: nat): (s: string)
    ensures |s| == n && AllDigits(s) && forall i :: 0 <= i < n ==> s[i] == '0'
  {
    seq(n, _ => '0')
  }

  function Format(n: int): (s: string)
    ensures s != "" && (s[0] == '-' || IsDigit(s[0]))
  {
    if n < 0 then "-" + Digits(-n) else Digits(n)
  }

  function Parse(s: string): Option<int> {
    if s != "" && AllDigits(s) then Some(Value(s))
    else if |s| > 1 && s[0] == '-' && AllDigits(s[1..]) then var magnitude: int := Value(s[1..]); Some(-magnitude)
    else None
  }

  lemma {:induction false} ValueOfDigits(n: nat)
    ensures Value(Digits(n)) == n
  {
    if n >= 10 {
      ValueOfDigits(n / 10);
      assert Digits(n)[..|Digits(n)| - 1] == Digits(n / 10);
    } else {
      assert Digits(n)[..0] == "";
    }
  }

  // Reading undoes writing, so two numbers print alike only if they are equal.
  lemma ParseFormat(n: int)
    ensures Parse(Format(n)) == Some(n)
  {
    if n < 0 {
      ValueOfDigits(-n);
      assert Format(n)[1..] == Digits(-n);
      assert !IsDigit(Format(n)[0]);
    } else {
      ValueOfDigits(n);
    }
  }

  // Text after the first colon of a digit string is determined by the whole.
  lemma SplitAtColon(p: string, q: string, r: string, t: string)
    requires AllDigits(p) && AllDigits(r) && p + ":" + q == r + ":" + t
    ensures p == r && q == t
  {
    var s := p + ":" + q;
    assert s[|p|] == ':' && s[|r|] == ':';
    assert forall k :: 0 <= k < |p| ==> s[k] == p[k] && s[k] != ':';
    assert forall k :: 0 <= k < |r| ==> s[k] == r[k] && s[k] != ':';
    assert |p| == |r|;
    assert p == s[..|p|] && r == s[..|r|];
    assert q == s[|p| + 1..] && t == s[|r| + 1..];
  }

  // A colon separates two natural numbers unambiguously.
  lemma PairInjective(a: nat, b: nat, c: nat, d: nat)
    requires Digits(a) + ":" + Digits(b) == Digits(c) + ":" + Digits(d)
    ensures a == c && b == d
  {
    SplitAtColon(Digits(a), Digits(b), Digits(c), Digits(d));
    ValueOfDigits(a);
    ValueOfDigits(b);
    ValueOfDigits(c);
    ValueOfDigits(d);
  }
}
