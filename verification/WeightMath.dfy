// Domain/measurement/weight_math.c: rounded division on int64, int32 clamping.
module WeightMath {
  import opened FixedWidth
  import opened MassMath

  // C division of int64: the quotient truncates toward zero.
  function TruncQuotient(n: int, d: int): int
    requires d != 0
  {
    var q: int := Abs(n) / Abs(d);
    if (n < 0) != (d < 0) then -q else q
  }

  function TruncRemainder(n: int, d: int): (r: int)
    requires d != 0
  {
    if n < 0 then -(Abs(n) % Abs(d)) else Abs(n) % Abs(d)
  }

  // They are the quotient and remainder of C: the quotient is the one nearest to
  // zero, the remainder has the sign of the numerator.
  lemma TruncQuotientIs(n: int, d: int)
    requires d != 0
    ensures n == TruncQuotient(n, d) * d + TruncRemainder(n, d) && Abs(TruncRemainder(n, d)) < Abs(d)
    ensures TruncRemainder(n, d) != 0 ==> (TruncRemainder(n, d) < 0 <==> n < 0)
  {
    var q, r := Abs(n) / Abs(d), Abs(n) % Abs(d);
    QuotientAndRest(Abs(n), Abs(d));
    SignOut(q, d);
  }

  lemma QuotientAndRest(a: nat, b: nat)
    requires b != 0
    ensures a == a / b * b + a % b && 0 <= a % b < b
  {}

  lemma SignOut(q: int, d: int)
    ensures (-q) * d == -(q * d) && q * (-d) == -(q * d) && (-q) * (-d) == q * d
  {}

  // Quotient rounded to nearest, halves away from zero.
  function DivideRoundNearest(numerator: i64, denominator: i64): Option<i64> {
    if denominator == 0 || (numerator == INT64_MIN && denominator == -1) then None
    else
      var quotient := TruncQuotient(numerator, denominator);
      var remainder := TruncRemainder(numerator, denominator);
      var round_threshold := Abs(denominator) / 2 + Abs(denominator) % 2;
      if remainder != 0 && Abs(remainder) >= round_threshold then
        var next := if (numerator < 0) == (denominator < 0) then quotient + 1 else quotient - 1;
        if FitsI64(next) then Some(next) else None
      else if FitsI64(quotient) then Some(quotient) else None
  }

  lemma HalfUp(a: nat, b: nat)
    requires b != 0
    ensures RoundedQuotient(a, b) == if a % b != 0 && a % b >= b / 2 + b % 2 then a / b + 1 else a / b
    ensures 0 <= a / b <= a && (b == 1 ==> a / b == a) && (b > 1 ==> 2 * (a / b) <= a)
  {
    var q, r := a / b, a % b;
    assert a == q * b + r;
    RoundUp(a, b, q, r);
    if b > 1 { MulLe(q, 2, b); } else { DivisionIs(a, 1, a, 0); }
  }

  // The remainder test is rounding half away from zero; only the one quotient
  // that int64 lacks makes it fail.
  lemma DivideRoundNearestIs(numerator: i64, denominator: i64)
    ensures DivideRoundNearest(numerator, denominator)
         == if denominator == 0 || !FitsI64(RoundHalfAway(numerator, denominator)) then None
            else Some(RoundHalfAway(numerator, denominator))
  {
    if denominator != 0 {
      HalfUp(Abs(numerator), Abs(denominator));
      hide RoundedQuotient;
      if Abs(denominator) == 1 {
        assert Abs(numerator) % Abs(denominator) == 0;
      }
    }
  }

  function ClampInt64ToInt32(value: int): Option<i32> {
    if FitsI32(value) then Some(value) else None
  }
}
