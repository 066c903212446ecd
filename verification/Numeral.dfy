// Numeral.dfy: the number a JSON numeral stands for (section 6 of RFC 8259), and what
// reading it as a float64 and writing it again makes of its text.
module Numeral {
  import opened Prelude
  import opened Decimal
  import opened Json
  import opened Wire

  // ---- the exact value ---------------------------------------------------

  // The number written by the digits at the start of s.
  function Leading(s: string): nat {
    RunIsDigits(s);
    Decimal.Value(s[..DigitRun(s)])
  }

  lemma {:induction false} RunIsDigits(s: string)
    ensures AllDigits(s[..DigitRun(s)])
  {
    if DigitRun(s) > 0 {
      RunIsDigits(s[1..]);
      assert s[..DigitRun(s)] == [s[0]] + s[1..][..DigitRun(s[1..])];
    }
  }

  // m times ten to the power of e.
  function Scale(m: real, e: int): real
    decreases if e < 0 then -e else e
  {
    if e == 0 then m else if e > 0 then Scale(m * 10.0, e - 1) else Scale(m / 10.0, e + 1)
  }

  function Exponent(s: string): int {
    if |s| < 2 then 0
    else if s[1] == '-' then var e: int := Leading(s[2..]); -e
    else Leading(if s[1] == '+' then s[2..] else s[1..])
  }

  predicate Negative(t: string) { t != "" && t[0] == '-' }

  function Unsigned(t: string): string { if Negative(t) then t[1..] else t }

  // The number with these digits before the point and this text after it.
  function WithPoint(whole: string, rest: string): real
    requires AllDigits(whole)
  {
    var k := DigitRun(rest);
    RunIsDigits(rest);
    Scale(Decimal.Value(whole + rest[..k]) as real, Exponent(rest[k..]) - k)
  }

  // The absolute value; the sign is kept apart because -0 is not 0 as a float64.
  function Magnitude(t: string): real {
    var s := Unsigned(t);
    var n := DigitRun(s);
    RunIsDigits(s);
    if n < |s| && s[n] == '.' then WithPoint(s[..n], s[n + 1..])
    else Scale(Decimal.Value(s[..n]) as real, Exponent(s[n..]))
  }

  // ---- float64 -----------------------------------------------------------

  // strconv.ParseFloat on a sign and a magnitude (None when out of range) and the
  // encoder's text of a float64, which is known by its bit pattern.
  datatype Floats = Floats(round: (bool, real) -> Option<int>, show: int -> string) {
    function Parse(t: string): Option<int> { round(Negative(t), Magnitude(t)) }

    // The text that reading and writing again makes of a numeral in range.
    function Rewrite(t: string): string { if Parse(t).Some? then show(Parse(t).value) else t }

    // A numeral as the encoder writes it.
    predicate Written(t: string) { IsNumber(t) && Parse(t).Some? && Rewrite(t) == t }
  }

  // The encoder writes a numeral that reads back as the same float64.
  ghost predicate Sound(fl: Floats) {
    forall negative: bool, x: real :: fl.round(negative, x).Some? ==>
      var f := fl.round(negative, x).value;
      IsNumber(fl.show(f)) && fl.Parse(fl.show(f)) == Some(f)
  }

  lemma RewriteIsWritten(fl: Floats, t: string)
    requires Sound(fl) && fl.Parse(t).Some?
    ensures fl.Written(fl.Rewrite(t)) && fl.Parse(fl.Rewrite(t)) == fl.Parse(t)
  {
    assert fl.round(Negative(t), Magnitude(t)).Some?;
  }

  // Two numerals are rewritten alike exactly when they read as the same float64.
  lemma SameRewriteIff(fl: Floats, t: string, u: string)
    requires Sound(fl) && fl.Parse(t).Some? && fl.Parse(u).Some?
    ensures fl.Rewrite(t) == fl.Rewrite(u) <==> fl.Parse(t) == fl.Parse(u)
  {
    RewriteIsWritten(fl, t);
    RewriteIsWritten(fl, u);
  }

  // ---- spellings of one number -------------------------------------------

  lemma {:induction false} ScaledZeros(s: string, k: nat)
    requires AllDigits(s)
    ensures Scale(Decimal.Value(s + Zeros(k)) as real, 0 - k) == Decimal.Value(s) as real
  {
    if k == 0 {
      assert s + Zeros(0) == s;
    } else {
      ScaledZeros(s, k - 1);
      OneMoreZero(s, k);
    }
  }

  lemma OneMoreZero(s: string, k: nat)
    requires k > 0 && AllDigits(s)
    ensures Decimal.Value(s + Zeros(k)) == Decimal.Value(s + Zeros(k - 1)) * 10
    ensures Decimal.Value(s + Zeros(k)) as real / 10.0 == Decimal.Value(s + Zeros(k - 1)) as real
  {
    var t := s + Zeros(k);
    assert t[..|t| - 1] == s + Zeros(k - 1) && t[|t| - 1] == '0';
  }

  // 1, 1.0 and 1.00 are one number.
  lemma PointZeros(s: string, k: nat)
    requires s != "" && AllDigits(s)
    ensures Magnitude(s + "." + Zeros(k)) == Magnitude(s)
    ensures !Negative(s + "." + Zeros(k)) && !Negative(s)
  {
    WholeValue(s);
    PointValue(s, Zeros(k));
    ScaledZeros(s, k);
  }

  lemma WholeValue(s: string)
    requires s != "" && AllDigits(s)
    ensures !Negative(s) && Magnitude(s) == Decimal.Value(s) as real
  {
    RunStops(s, "");
    assert s + "" == s && s[..|s|] == s && s[|s|..] == "";
  }

  lemma PointParts(s: string, frac: string)
    requires s != "" && AllDigits(s) && AllDigits(frac)
    ensures var t := s + "." + frac;
      && !Negative(t) && DigitRun(t) == |s| && t[|s|] == '.' && t[..|s|] == s && t[|s| + 1..] == frac
    ensures DigitRun(frac) == |frac|
  {
    var t := s + "." + frac;
    assert t == s + ("." + frac) && t[0] == s[0];
    RunStops(s, "." + frac);
    RunStops(frac, "");
    assert frac + "" == frac;
  }

  lemma OnlyDigits(whole: string, frac: string)
    requires AllDigits(whole) && AllDigits(frac) && DigitRun(frac) == |frac|
    ensures WithPoint(whole, frac) == Scale(Decimal.Value(whole + frac) as real, 0 - |frac|)
  {
    assert frac[..|frac|] == frac && frac[|frac|..] == "";
  }

  lemma PointValue(s: string, frac: string)
    requires s != "" && AllDigits(s) && AllDigits(frac)
    ensures !Negative(s + "." + frac)
    ensures Magnitude(s + "." + frac) == Scale(Decimal.Value(s + frac) as real, 0 - |frac|)
  {
    PointParts(s, frac);
    OnlyDigits(s, frac);
  }

  // So the same float64 is read and written, whatever the rounding.
  lemma PointZerosRewriteAlike(fl: Floats, s: string, k: nat)
    requires s != "" && AllDigits(s)
    ensures fl.Parse(s + "." + Zeros(k)) == fl.Parse(s)
  {
    PointZeros(s, k);
  }

  lemma PointZerosAreNumber(n: nat, k: nat)
    requires k > 0
    ensures IsNumber(Digits(n) + "." + Zeros(k))
  {
    var s, z := Digits(n), Zeros(k);
    var t := s + "." + z;
    NoLeadingZero(n);
    assert t == s + ("." + z);
    RunStops(s, "." + z);
    RunStops(z, "");
    assert z + "" == z && z[|z|..] == "";
    assert t[0] == s[0] && t[|s|..] == "." + z && ("." + z)[1..] == z;
    assert forall i :: 0 <= i < |s| ==> IsDigit(s[i]);
    assert forall i :: 0 <= i < |t| ==> t[i] == if i < |s| then s[i] else if i == |s| then '.' else z[i - |s| - 1];
  }
}
