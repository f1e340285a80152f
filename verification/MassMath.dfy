// Domain/measurement/mass_math.c: exact 64/128-bit fixed-point arithmetic.
module MassMath {
  import opened FixedWidth

  datatype WideUnsigned = WideUnsigned(high: u64, low: u64)

  function Wide(w: WideUnsigned): nat { w.high * 0x1_0000_0000_0000_0000 + w.low }

  function Pow2(n: nat): (p: nat)
    ensures p >= 1
  {
    if n == 0 then 1 else 2 * Pow2(n - 1)
  }

  lemma {:induction false} Pow2Add(a: nat, b: nat)
    ensures Pow2(a + b) == Pow2(a) * Pow2(b)
  {
    if a > 0 {
      Pow2Add(a - 1, b);
    }
  }

  lemma Pow2Square(n: nat, x: nat)
    requires Pow2(n) == x
    ensures Pow2(2 * n) == x * x
  {
    Pow2Add(n, n);
  }

  lemma Pow2Of64()
    ensures Pow2(64) == 0x1_0000_0000_0000_0000
  {
    assert Pow2(4) == 16;
    Pow2Square(4, 16);
    Pow2Square(8, 0x100);
    Pow2Square(16, 0x1_0000);
    Pow2Square(32, 0x1_0000_0000);
  }

  lemma Pow2Of128()
    ensures Pow2(128) == 0x1_0000_0000_0000_0000 * 0x1_0000_0000_0000_0000
  {
    Pow2Of64();
    Pow2Square(64, 0x1_0000_0000_0000_0000);
  }

  // ---- what "rounded" means ------------------------------------------------

  // Quotient of two magnitudes, nearest integer, halves upwards.
  function RoundedQuotient(n: nat, d: nat): (q: nat)
    requires d != 0
  {
    (2 * n + d) / (2 * d)
  }

  // Nearest integer to n/d, halves away from zero.
  function RoundHalfAway(n: int, d: int): int
    requires d != 0
  {
    if (n < 0) != (d < 0) then -(RoundedQuotient(Abs(n), Abs(d)) as int) else RoundedQuotient(Abs(n), Abs(d))
  }

  lemma MulLe(d: nat, a: int, b: int)
    requires a <= b
    ensures d * a <= d * b
  {
    assert 0 <= d * (b - a);
  }

  lemma MulLess(d: nat, a: int, b: int)
    requires a < b
    ensures a * d + d <= b * d
  {
    assert 0 <= (b - a - 1) * d;
  }

  // The definition of floor division, and its only solution.
  lemma DivisionIs(n: int, d: int, q: int, r: int)
    requires d > 0 && 0 <= r < d && n == q * d + r
    ensures n / d == q && n % d == r
  {
    var q', r' := n / d, n % d;
    assert (q - q') * d == r' - r;
    if q > q' {
      MulLe(d, 1, q - q');
    } else if q < q' {
      MulLe(d, q - q', -1);
    }
  }

  // r is a nearest integer to n/d, and on a tie the one further from zero.
  ghost predicate NearestAwayFromZero(n: int, d: int, r: int)
    requires d != 0
  {
    && 2 * Abs(r * d - n) <= Abs(d)
    && (2 * Abs(r * d - n) == Abs(d) ==> Abs(r * d) > Abs(n))
  }

  // The magnitude case: half-up division brackets the numerator.
  lemma RoundedQuotientBounds(n: nat, d: nat)
    requires d != 0
    ensures var q := RoundedQuotient(n, d); 2 * (q * d) - d <= 2 * n < 2 * (q * d) + d
  {
    var q := RoundedQuotient(n, d);
    var r := (2 * n + d) % (2 * d);
    assert 2 * n + d == q * (2 * d) + r;
    assert q * (2 * d) == 2 * (q * d);
  }

  lemma RoundedQuotientUnique(n: nat, d: nat, q: int)
    requires d != 0
    requires 2 * (q * d) - d <= 2 * n < 2 * (q * d) + d
    ensures RoundedQuotient(n, d) == q
  {
    assert q * (2 * d) == 2 * (q * d);
    DivisionIs(2 * n + d, 2 * d, q, 2 * n + d - q * (2 * d));
  }

  // RoundHalfAway meets its specification ...
  lemma RoundHalfAwayIsNearest(n: int, d: int)
    requires d != 0
    ensures NearestAwayFromZero(n, d, RoundHalfAway(n, d))
  {
    RoundedQuotientBounds(Abs(n), Abs(d));
    SignedMultiple(n, d, RoundedQuotient(Abs(n), Abs(d)));
    hide RoundedQuotient;
  }

  // The quotient with the sign of n / d times d has the sign of n.
  lemma SignedMultiple(n: int, d: int, q: int)
    ensures (if (n < 0) != (d < 0) then -q else q) * d == if n < 0 then -(q * Abs(d)) else q * Abs(d)
  {
    NegatedFactor(q, d);
    NegatedFactor(d, q);
  }

  lemma NegatedFactor(x: int, y: int)
    ensures (-x) * y == -(x * y) == x * (-y)
  {}

  // ... and nothing else does.
  lemma NearestAwayFromZeroIsUnique(n: int, d: int, r: int)
    requires d != 0 && NearestAwayFromZero(n, d, r)
    ensures r == RoundHalfAway(n, d)
  {
    var s := if (n < 0) != (d < 0) then -r else r;
    assert r * d == (if n < 0 then -(s * Abs(d)) else s * Abs(d)) by {
      assert (-r) * d == -(r * d) && r * (-d) == -(r * d) && (-r) * (-d) == r * d;
    }
    NearestMagnitude(Abs(n), Abs(d), s);
  }

  lemma NearestMagnitude(a: nat, b: nat, s: int)
    requires b != 0 && 2 * Abs(s * b - a) <= b
    requires 2 * Abs(s * b - a) == b ==> Abs(s * b) > a
    ensures RoundedQuotient(a, b) == s
  {
    if s < 0 {
      MulLe(b, s, -1);
      assert false;
    }
    MulLe(b, 0, s);
    RoundedQuotientUnique(a, b, s);
  }

  // ---- the operations --------------------------------------------------------

  function Magnitude(value: i64): (m: u64)
    ensures m == Abs(value)
  {
    // (uint64_t)value, negated modulo 2^64 when the sign bit is set.
    var bits := value % 0x1_0000_0000_0000_0000;
    if value < 0 then (0 - bits) % 0x1_0000_0000_0000_0000 else bits
  }

  // A sum of two 64-bit words (and a carry) as uint64 holds it.
  function Wrap(sum: nat): (r: u64)
    requires sum < 0x2_0000_0000_0000_0000
    ensures r == sum || r == sum - 0x1_0000_0000_0000_0000
  {
    if sum < 0x1_0000_0000_0000_0000 then sum else sum - 0x1_0000_0000_0000_0000
  }

  // One 128-bit addition: the low words' carry is seen as a wrap of the sum.
  function AddWide(x: WideUnsigned, y: WideUnsigned): (r: WideUnsigned)
    ensures Wide(x) + Wide(y) < 0x1_0000_0000_0000_0000_0000_0000_0000_0000 ==> Wide(r) == Wide(x) + Wide(y)
  {
    var low, high := Wrap(x.low + y.low), Wrap(x.high + y.high);
    WideUnsigned(if low < x.low then Wrap(high + 1) else high, low)
  }

  // One shift to the left: the top bit of `low` moves into `high`.
  function DoubleWide(w: WideUnsigned): (r: WideUnsigned)
    ensures 2 * Wide(w) < 0x1_0000_0000_0000_0000_0000_0000_0000_0000 ==> Wide(r) == 2 * Wide(w)
  {
    var top := if w.low >= 0x8000_0000_0000_0000 then 1 else 0;
    // The doubled high word is even, so or-ing the bit in is an addition.
    WideUnsigned(Wrap(2 * w.high) + top, Wrap(2 * w.low))
  }

  // 64 x 64 -> 128 bits by shift and add: no bit of the product is lost.
  method MultiplyWide(first: u64, second: u64) returns (product: WideUnsigned)
    ensures Wide(product) == first * second
  {
    product := WideUnsigned(0, 0);
    var addend, multiplier, bit := WideUnsigned(0, first), second, 0;
    Pow2Of64();
    ProductBound(first, second, 0x1_0000_0000_0000_0000, 0x1_0000_0000_0000_0000);
    while bit < 64
      invariant 0 <= bit <= 64
      invariant 0 <= multiplier < Pow2(64 - bit)
      invariant multiplier != 0 ==> Wide(product) + Wide(addend) * multiplier == first * second
      invariant multiplier == 0 ==> Wide(product) == first * second
    {
      if multiplier != 0 {
        ProductStep(Wide(product), Wide(addend), multiplier, first * second);
      }
      if multiplier % 2 == 1 {
        product := AddWide(product, addend);
      }
      multiplier := multiplier / 2;
      addend := DoubleWide(addend);
      bit := bit + 1;
    }
  }

  lemma ProductBound(a: nat, b: nat, m: nat, n: nat)
    requires a < m && b < n
    ensures a * b < m * n
  {
    MulLe(a, b, n);
    MulLe(n, a, m - 1);
  }

  lemma ProductStep(p: nat, a: nat, m: nat, total: nat)
    requires m != 0 && p + a * m == total
    ensures m % 2 == 1 ==> p + a <= total
    ensures m / 2 != 0 ==> 2 * a <= total
    ensures (if m % 2 == 1 then p + a else p) + (2 * a) * (m / 2) == total
  {
    assert a * m == (2 * a) * (m / 2) + a * (m % 2) by {
      assert a * m == a * (2 * (m / 2) + m % 2);
    }
    MulLe(2 * a, 0, m / 2);
    if m / 2 != 0 {
      MulLe(2 * a, 1, m / 2);
    }
  }

  // Bit `bit` of the 128-bit numerator.
  function NumeratorBit(n: WideUnsigned, bit: nat): (b: nat)
    requires bit < 128
  {
    if bit >= 64 then n.high / Pow2(bit - 64) % 2 else n.low / Pow2(bit) % 2
  }

  lemma NumeratorBitIs(n: WideUnsigned, bit: nat)
    requires bit < 128
    ensures Wide(n) / Pow2(bit) == 2 * (Wide(n) / Pow2(bit + 1)) + NumeratorBit(n, bit)
    ensures NumeratorBit(n, bit) < 2
  {
    HalfQuotient(Wide(n), Pow2(bit));
    if bit >= 64 {
      HighBits(n, bit);
    } else {
      LowBits(n, bit);
    }
  }

  lemma HighBits(n: WideUnsigned, bit: nat)
    requires 64 <= bit
    ensures Wide(n) / Pow2(bit) == n.high / Pow2(bit - 64)
  {
    Pow2Of64();
    Pow2Add(bit - 64, 64);
    ShiftWords(n.high, n.low, Pow2(bit - 64));
  }

  lemma LowBits(n: WideUnsigned, bit: nat)
    requires bit < 64
    ensures Wide(n) / Pow2(bit) % 2 == n.low / Pow2(bit) % 2
  {
    Pow2Of64();
    Pow2Add(63 - bit, bit);
    assert Pow2(64) == 2 * Pow2(63);
    DropHighWord(n.high, n.low, Pow2(bit), Pow2(63 - bit), 0x1_0000_0000_0000_0000);
  }

  lemma DropHighWord(high: nat, low: nat, p: nat, c: nat, w: nat)
    requires p > 0 && w == 2 * (c * p)
    ensures (high * w + low) / p % 2 == low / p % 2
  {
    Reassociate(high, c, p);
    EvenAddend(high * c, low, p);
  }

  lemma Reassociate(a: nat, b: nat, c: nat)
    ensures (2 * (a * b)) * c == a * (2 * (b * c))
  {
    assert (2 * (a * b)) * c == 2 * ((a * b) * c) && (a * b) * c == a * (b * c);
    assert a * (2 * (b * c)) == 2 * (a * (b * c));
  }

  lemma HalfQuotient(n: nat, p: nat)
    requires p > 0
    ensures n / p == 2 * (n / (2 * p)) + (n / p) % 2
  {
    var q := n / p;
    var r := n % p;
    assert n == (q / 2) * (2 * p) + ((q % 2) * p + r) by {
      assert q == 2 * (q / 2) + q % 2;
      assert (2 * (q / 2) + q % 2) * p == (q / 2) * (2 * p) + (q % 2) * p;
    }
    assert 0 <= (q % 2) * p <= p;
    DivisionIs(n, 2 * p, q / 2, (q % 2) * p + r);
  }

  // Dividing high:low by 2^64 * p is dividing high by p.
  lemma ShiftWords(high: nat, low: nat, p: nat)
    requires p > 0 && low < 0x1_0000_0000_0000_0000
    ensures (high * 0x1_0000_0000_0000_0000 + low) / (p * 0x1_0000_0000_0000_0000) == high / p
  {
    var q, r := high / p, high % p;
    assert high * 0x1_0000_0000_0000_0000 + low ==
           q * (p * 0x1_0000_0000_0000_0000) + (r * 0x1_0000_0000_0000_0000 + low);
    assert r * 0x1_0000_0000_0000_0000 + low < p * 0x1_0000_0000_0000_0000;
    DivisionIs(high * 0x1_0000_0000_0000_0000 + low, p * 0x1_0000_0000_0000_0000, q, r * 0x1_0000_0000_0000_0000 + low);
  }

  // An even multiple of p added to n does not show in bit 0 of the quotient.
  lemma EvenAddend(k: nat, n: nat, p: nat)
    requires p > 0
    ensures ((2 * k) * p + n) / p % 2 == n / p % 2
  {
    assert (2 * k) * p + n == (2 * k + n / p) * p + n % p;
    DivisionIs((2 * k) * p + n, p, 2 * k + n / p, n % p);
  }

  // The two remainders a restoring step chooses between.
  lemma QuotientStep(n: nat, q: nat, d: nat, r: nat, b: nat)
    requires n == q * d + r
    ensures 2 * n + b == (2 * q) * d + (2 * r + b)
    ensures 2 * n + b == (2 * q + 1) * d + (2 * r + b - d)
  {
    assert (2 * q) * d == 2 * (q * d) && (2 * q + 1) * d == 2 * (q * d) + d;
  }

  // After the bits above `bit`: `q` is the exact quotient so far.  Its bits
  // below 2^64 (`low`) stand in `result` at their final place; `overflow`
  // tells whether there are any above.
  ghost predicate QuotientHeld(q: nat, low: nat, result: int, overflow: bool, bit: int)
    requires -1 <= bit <= 127
  {
    if bit >= 63 then (overflow <==> q != 0) && result == 0 && low == 0
    else
      && low < Pow2(63 - bit) && result == low * Pow2(bit + 1)
      && (if overflow then q >= Pow2(63 - bit) else q == low)
  }

  lemma QuotientHeldStep(q: nat, low: nat, result: int, overflow: bool, bit: nat, subtract: bool)
    requires bit <= 127 && QuotientHeld(q, low, result, overflow, bit)
    ensures var one := if subtract then 1 else 0;
            if bit >= 64 then QuotientHeld(2 * q + one, 0, result, overflow || subtract, bit - 1)
            else
              && QuotientHeld(2 * q + one, 2 * low + one, if subtract then result + Pow2(bit) else result, overflow,
                              bit - 1)
              && 0 <= result <= 0x1_0000_0000_0000_0000 - 2 * Pow2(bit)
  {
    if bit < 64 {
      ResultStep(low, result, bit, subtract);
      assert 64 - bit == 63 - (bit - 1);
      assert Pow2(64 - bit) == 2 * Pow2(63 - bit);
      if overflow {
        assert q >= Pow2(63 - bit);
      }
    }
  }

  lemma ResultStep(q: nat, result: int, bit: nat, subtract: bool)
    requires bit < 64
    requires q < Pow2(63 - bit) && result == q * Pow2(bit + 1)
    ensures var next := 2 * q + (if subtract then 1 else 0);
            next < Pow2(64 - bit) && (if subtract then result + Pow2(bit) else result) == next * Pow2(bit)
    ensures 0 <= result <= 0x1_0000_0000_0000_0000 - 2 * Pow2(bit)
  {
    Pow2Add(63 - bit, bit + 1);
    Pow2Of64();
    ProductRoom(q, Pow2(bit + 1), Pow2(63 - bit));
    OddEvenPlaces(q, Pow2(bit), 0);
    OddEvenPlaces(q, Pow2(bit), 1);
  }

  lemma OddEvenPlaces(q: nat, w: nat, s: nat)
    ensures q * (2 * w) + s * w == (2 * q + s) * w
  {}

  lemma ProductRoom(q: nat, w: nat, limit: nat)
    requires q < limit
    ensures 0 <= q * w <= limit * w - w
  {
    MulLe(w, q, limit - 1);
    MulLe(w, 0, q);
    assert w * (limit - 1) == limit * w - w;
  }

  // Shift one numerator bit into the remainder and subtract the denominator if
  // it fits; a 65th bit is only seen as `carry`.
  function RestoreBit(remainder: u64, input_bit: nat, denominator: u64): (step: (bool, u64))
    requires remainder < denominator && input_bit < 2
    ensures step.0 <==> 2 * remainder + input_bit >= denominator
    ensures step.1 == 2 * remainder + input_bit - (if step.0 then denominator else 0)
    ensures step.1 < denominator
  {
    var carry := remainder >= 0x8000_0000_0000_0000;
    var shifted := Wrap(2 * remainder + input_bit);
    if carry || shifted >= denominator
    then (true,
          if shifted >= denominator then shifted - denominator else shifted - denominator + 0x1_0000_0000_0000_0000)
    else (false, shifted)
  }

  // The numerator bits above `bit`, divided.
  ghost predicate RemainderHeld(n: WideUnsigned, d: u64, q: nat, r: u64, bit: int)
    requires -1 <= bit <= 127
  {
    r < d && Wide(n) / Pow2(bit + 1) == q * d + r
  }

  lemma RemainderHeldStep(n: WideUnsigned, d: u64, q: nat, r: u64, bit: nat)
    requires bit <= 127 && RemainderHeld(n, d, q, r, bit)
    ensures NumeratorBit(n, bit) < 2
    ensures var step := RestoreBit(r, NumeratorBit(n, bit), d);
            RemainderHeld(n, d, 2 * q + (if step.0 then 1 else 0), step.1, bit - 1)
  {
    NumeratorBitIs(n, bit);
    QuotientStep(Wide(n) / Pow2(bit + 1), q, d, r, NumeratorBit(n, bit));
  }

  lemma DivisionStarts(n: WideUnsigned, d: u64)
    requires d != 0
    ensures RemainderHeld(n, d, 0, 0, 127)
  {
    Pow2Of128();
    DivisionIs(Wide(n), Pow2(128), 0, Wide(n));
  }

  // What the rounding at the end does with the exact quotient and remainder.
  lemma DivisionEnds(n: WideUnsigned, d: u64, q: nat, r: u64, low: nat, result: int, overflow: bool)
    requires RemainderHeld(n, d, q, r, -1) && QuotientHeld(q, low, result, overflow, -1)
    ensures RoundedQuotient(Wide(n), d) == if r != 0 && r >= d - r then q + 1 else q
    ensures if overflow then q >= 0x1_0000_0000_0000_0000 else result == q < 0x1_0000_0000_0000_0000
  {
    Pow2Of64();
    RoundUp(Wide(n), d, q, r);
  }

  // The bit loop of the 128 / 64 restoring division.
  method RestoringDivide(numerator: WideUnsigned, denominator: u64)
    returns (result: u64, remainder: u64, overflow: bool, ghost q: nat, ghost low: nat)
    requires denominator != 0
    ensures RemainderHeld(numerator, denominator, q, remainder, -1)
    ensures QuotientHeld(q, low, result, overflow, -1)
  {
    result, remainder, overflow, q, low := 0, 0, false, 0, 0;
    var bit := 127;
    DivisionStarts(numerator, denominator);
    while bit >= 0
      invariant -1 <= bit <= 127
      invariant RemainderHeld(numerator, denominator, q, remainder, bit)
      invariant QuotientHeld(q, low, result, overflow, bit)
    {
      RemainderHeldStep(numerator, denominator, q, remainder, bit);
      var (subtract, rest) := RestoreBit(remainder, NumeratorBit(numerator, bit), denominator);
      QuotientHeldStep(q, low, result, overflow, bit, subtract);
      remainder := rest;
      if subtract {
        if bit >= 64 {
          overflow := true;
        } else {
          // result |= 1 << bit: that bit and all lower ones are still clear.
          result := result + Pow2(bit);
        }
      }
      low := if bit >= 64 then 0 else 2 * low + (if subtract then 1 else 0);
      q := 2 * q + (if subtract then 1 else 0);
      bit := bit - 1;
    }
  }

  // 128 / 64 division, rounded half up.  `ok` is false exactly when there is no
  // such quotient in 64 bits.
  method DivideWideRounded(numerator: WideUnsigned, denominator: u64) returns (ok: bool, quotient: u64)
    ensures ok <==> denominator != 0 && RoundedQuotient(Wide(numerator), denominator) <= UINT64_MAX
    ensures ok ==> quotient == RoundedQuotient(Wide(numerator), denominator)
  {
    if denominator == 0 {
      return false, 0;
    }
    var result, remainder, overflow, q, low := RestoringDivide(numerator, denominator);
    DivisionEnds(numerator, denominator, q, remainder, low, result, overflow);
    if overflow {
      return false, 0;
    }
    if remainder != 0 && remainder >= denominator - remainder {
      if result == UINT64_MAX {
        return false, 0;
      }
      result := result + 1;
    }
    return true, result;
  }

  lemma RoundUp(n: nat, d: nat, q: nat, r: nat)
    requires r < d && n == q * d + r
    ensures RoundedQuotient(n, d) == if r != 0 && r >= d - r then q + 1 else q
  {
    assert 2 * (q * d) == q * (2 * d) && (q + 1) * d == q * d + d;
    RoundedQuotientUnique(n, d, if r != 0 && r >= d - r then q + 1 else q);
  }

  // first + second and first - second, or nothing when int64 overflows.
  function Add(first: i64, second: i64): (r: Option<i64>)
    ensures r == if FitsI64(first + second) then Some(first + second) else None
  {
    if (second > 0 && first > INT64_MAX - second) || (second < 0 && first < INT64_MIN - second)
    then None else Some(first + second)
  }

  function Subtract(first: i64, second: i64): (r: Option<i64>)
    ensures r == if FitsI64(first - second) then Some(first - second) else None
  {
    if (second < 0 && first > INT64_MAX + second) || (second > 0 && first < INT64_MIN + second)
    then None else Some(first - second)
  }

  // What MulDivRound computes, for callers that are functions.
  function MulDivRounded(value: i64, multiplier: i64, divisor: i64): Option<i64> {
    if divisor != 0 && FitsI64(RoundHalfAway(value * multiplier, divisor))
    then Some(RoundHalfAway(value * multiplier, divisor)) else None
  }

  // value * multiplier / divisor through a 128-bit product, for every int64
  // input including INT64_MIN.
  method MulDivRound(value: i64, multiplier: i64, divisor: i64) returns (result: Option<i64>)
    ensures result.Some? <==> divisor != 0 && FitsI64(RoundHalfAway(value * multiplier, divisor))
    ensures result.Some? ==> NearestAwayFromZero(value * multiplier, divisor, result.value)
    ensures result == MulDivRounded(value, multiplier, divisor)
  {
    if divisor == 0 {
      return None;
    }
    var negative := ((value < 0) != (multiplier < 0)) != (divisor < 0);
    var product := MultiplyWide(Magnitude(value), Magnitude(multiplier));
    var ok, quotient := DivideWideRounded(product, Magnitude(divisor));
    SignOfProduct(value, multiplier, divisor);
    RoundHalfAwayIsNearest(value * multiplier, divisor);
    if !ok {
      return None;
    }
    if negative {
      if quotient > 0x8000_0000_0000_0000 {
        return None;
      }
      result := Some(if quotient == 0x8000_0000_0000_0000 then INT64_MIN else -quotient);
    } else {
      if quotient > INT64_MAX {
        return None;
      }
      result := Some(quotient);
    }
  }

  lemma SignOfProduct(value: int, multiplier: int, divisor: int)
    requires divisor != 0
    ensures Abs(value * multiplier) == Abs(value) * Abs(multiplier)
    ensures var q := RoundedQuotient(Abs(value) * Abs(multiplier), Abs(divisor));
            RoundHalfAway(value * multiplier, divisor)
            == if ((value < 0) != (multiplier < 0)) != (divisor < 0) then -(q as int) else q
  {
    assert Abs(value * multiplier) == Abs(value) * Abs(multiplier) by {
      assert (-value) * multiplier == -(value * multiplier) && value * (-multiplier) == -(value * multiplier);
      assert (-value) * (-multiplier) == value * multiplier;
      MulLe(Abs(multiplier), 0, Abs(value));
    }
    if value * multiplier == 0 {
      RoundedQuotientUnique(0, Abs(divisor), 0);
    } else {
      assert value * multiplier < 0 <==> (value < 0) != (multiplier < 0);
    }
  }

  // The multiple of `division` nearest to value, halves away from zero.
  function Quantized(value: i64, division: u64): Option<i64> {
    if division == 0 || division > INT64_MAX then None else
    match MulDivRounded(value, 1, division)
    case None => None
    case Some(units) => MulDivRounded(units, division, 1)
  }

  method Quantize(value: i64, division: u64) returns (result: Option<i64>)
    ensures result == Quantized(value, division)
  {
    if division == 0 || division > INT64_MAX {
      return None;
    }
    var units := MulDivRound(value, 1, division);
    if units.None? {
      return None;
    }
    result := MulDivRound(units.value, division, 1);
  }

  lemma RoundHalfAwayExact(k: int, d: int)
    requires d != 0
    ensures RoundHalfAway(k * d, d) == k
  {
    NearestAwayFromZeroIsUnique(k * d, d, k);
  }

  // Quantize fails only on a bad division or an unrepresentable multiple, and
  // returns the nearest multiple.
  lemma QuantizedIs(value: i64, division: u64)
    ensures division == 0 || division > INT64_MAX ==> Quantized(value, division) == None
    ensures 1 <= division <= INT64_MAX ==>
      var units := RoundHalfAway(value, division);
      && NearestAwayFromZero(value, division, units)
      && Quantized(value, division) == if FitsI64(units * division) then Some(units * division) else None
  {
    if 1 <= division <= INT64_MAX {
      RoundHalfAwayIsNearest(value, division);
      QuotientShrinks(Abs(value), division);
      var units := RoundHalfAway(value, division);
      RoundHalfAwayExact(units * division, 1);
    }
  }

  lemma QuotientShrinks(a: nat, d: nat)
    requires d != 0
    ensures RoundedQuotient(a, d) <= a
  {
    RoundedQuotientBounds(a, d);
    assert d * (a + 1) == a * d + d;
    MulLe(a, 1, d);
    if RoundedQuotient(a, d) > a {
      MulLe(d, a + 1, RoundedQuotient(a, d));
    }
  }

  lemma QuantizeIdempotent(value: i64, division: u64)
    requires Quantized(value, division).Some?
    ensures Quantized(Quantized(value, division).value, division) == Quantized(value, division)
  {
    QuantizedIs(value, division);
    var units := RoundHalfAway(value, division);
    QuantizedIs(units * division, division);
    RoundHalfAwayExact(units, division);
  }

  // Rounding preserves order in the numerator.
  lemma RoundHalfAwayMonotone(n: int, m: int, d: int)
    requires d > 0 && n <= m
    ensures RoundHalfAway(n, d) <= RoundHalfAway(m, d)
  {
    var p, q := RoundHalfAway(n, d), RoundHalfAway(m, d);
    RoundHalfAwayIsNearest(n, d);
    RoundHalfAwayIsNearest(m, d);
    if n < m && p > q {
      MulLess(d, q, p);
      NearestBounds(n, d, p);
      NearestBounds(m, d, q);
    }
  }

  lemma NearestBounds(n: int, d: int, r: int)
    requires d > 0 && NearestAwayFromZero(n, d, r)
    ensures 2 * n - d <= 2 * (r * d) <= 2 * n + d
  {
    var rd := r * d;
  }
}
