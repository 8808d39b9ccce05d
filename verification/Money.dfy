/** Amounts: floating-point units of money against whole cents. Floating point is a rounding
    function on reals, of which only the error bound of IEEE doubles is used. */
module Money {
  import opened Common
  import opened Decimal
  import opened Text

  const TWO_TO_47 := 140737488355328
  const TWO_TO_50 := 1125899906842624
  const TWO_TO_53 := 9007199254740992
  const TWO_TO_63 := 9223372036854775808

  function Abs(x: real): real { if x < 0.0 then -x else x }

  /** A relative error of at most 2^-53, next to a far larger allowance around zero than IEEE needs. */
  predicate Near(y: real, x: real) {
    Abs(y - x) <= Abs(x) / 9007199254740992.0 + 1.0 / 1000000000000000000000000000000.0
  }

  /** Rounding to doubles, as far as it is used: near, and exact on integers up to 2^53. */
  ghost predicate Rounds(fl: real -> real) {
    && (forall x {:trigger Near(fl(x), x)} :: Abs(x) <= 9223372036854775808.0 ==> Near(fl(x), x))
    && (forall n {:trigger Exact(fl, n)} :: -TWO_TO_53 <= n <= TWO_TO_53 ==> Exact(fl, n))
  }

  predicate Exact(fl: real -> real, n: int) { fl(n as real) == n as real }

  datatype Float = Finite(value: real) | Infinite | NotANumber

  /** What a platform decides: rounding, whether a*b-c is rounded once, the int64 of a number out of
      range, and what other spellings of numbers (exponents, hexadecimal, infinities) stand for. */
  datatype Platform = Platform(fl: real -> real, fused: bool, beyond: int -> int, other: string -> Option<Float>)

  // ---- conversions ----

  /** Rounding gives a nearest whole number, of two the one further from zero. */
  lemma {:induction false} RoundMeans(x: real)
    ensures Abs(Round(x) as real - x) <= 0.5
    ensures Abs(Round(x) as real - x) == 0.5 ==> Abs(Round(x) as real) > Abs(x)
  {
  }

  /** Only a number outside 64 bits is left to the platform. */
  lemma {:induction false} Int64Means(p: Platform, n: int)
    ensures -9223372036854775808 <= n && n <= 9223372036854775807 ==> Int64(p, n) == n
    ensures n < -9223372036854775808 || n > 9223372036854775807 ==> Int64(p, n) == p.beyond(n)
  {
  }

  /** math.Round: halves away from zero. */
  function Round(x: real): int {
    if x >= 0.0 then (x + 0.5).Floor else -(-x + 0.5).Floor
  }

  function Int64(p: Platform, n: int): int {
    if -TWO_TO_63 <= n < TWO_TO_63 then n else p.beyond(n)
  }

  function ToCents(p: Platform, amount: real): int {
    Int64(p, Round(p.fl(amount * 100.0)))
  }

  function FromCents(p: Platform, cents: int): real {
    p.fl(p.fl(cents as real) / 100.0)
  }

  /** The distance that decides whether an amount is a whole number of cents. */
  function Excess(p: Platform, amount: real, cents: int): real {
    var whole := p.fl(cents as real);
    Abs(if p.fused then p.fl(amount * 100.0 - whole) else p.fl(p.fl(amount * 100.0) - whole))
  }

  const INEXACT_AMOUNT := "amount must be a non-negative number with at most two decimal places"

  function ToCentsExact(p: Platform, amount: Float): Result<int> {
    if amount.Finite? && amount.value >= 0.0 then
      var cents := ToCents(p, amount.value);
      if Excess(p, amount.value, cents) < p.fl(1.0 / 1000000000.0) then Ok(cents) else Err(INEXACT_AMOUNT)
    else Err(INEXACT_AMOUNT)
  }

  // ---- rounding, step by step ----

  lemma {:induction false} RoundNear(x: real, n: int)
    requires Abs(x - n as real) < 0.5
    ensures Round(x) == n
  {
  }

  lemma {:induction false} Rounded(p: Platform, x: real)
    requires Rounds(p.fl) && Abs(x) <= 9223372036854775808.0
    ensures Near(p.fl(x), x)
  {
  }

  lemma {:induction false} Whole(p: Platform, c: int)
    requires Rounds(p.fl) && -TWO_TO_53 <= c <= TWO_TO_53
    ensures p.fl(c as real) == c as real
  {
    assert Exact(p.fl, c);
  }

  /** Dividing by a hundred and multiplying again moves a number by two roundings. */
  lemma {:induction false} TwoRoundings(c: real, a: real, y: real)
    requires Near(a, c / 100.0) && Near(y, a * 100.0)
    ensures Abs(a * 100.0 - c) <= Abs(c) / 9007199254740992.0 + 1.0 / 1000000000000000000000000000.0
    ensures Abs(y - c) <= Abs(c) / 4503599627370495.0 + 1.0 / 1000000000000000000000000000.0
  {
  }

  /** Where an amount and a hundred times it lie, after rounding. */
  lemma {:induction false} CentsClose(p: Platform, c: int)
    requires Rounds(p.fl) && -TWO_TO_50 <= c <= TWO_TO_50
    ensures var a := FromCents(p, c);
      && Abs(a * 100.0 - c as real) <= Abs(c as real) / 9007199254740992.0 + 1.0 / 1000000000000000000000000000.0
      && Abs(p.fl(a * 100.0) - c as real) <= Abs(c as real) / 4503599627370495.0 + 1.0 / 1000000000000000000000000000.0
  {
    Whole(p, c);
    Rounded(p, c as real / 100.0);
    var a := FromCents(p, c);
    AmountBounded(c as real, a);
    Rounded(p, a * 100.0);
    TwoRoundings(c as real, a, p.fl(a * 100.0));
  }

  lemma {:induction false} AmountBounded(c: real, a: real)
    requires Near(a, c / 100.0) && Abs(c) <= 1125899906842624.0
    ensures Abs(a * 100.0) <= 9223372036854775808.0
  {
  }

  // ---- the number round trip ----

  /** Cents survive the way to an amount and back. */
  lemma {:induction false} CentsRoundTrip(p: Platform, c: int)
    requires Rounds(p.fl) && -TWO_TO_50 <= c <= TWO_TO_50
    ensures ToCents(p, FromCents(p, c)) == c
  {
    CentsClose(p, c);
    CloseEnough(c as real, p.fl(FromCents(p, c) * 100.0));
    RoundNear(p.fl(FromCents(p, c) * 100.0), c);
  }

  lemma {:induction false} CloseEnough(c: real, y: real)
    requires Abs(c) <= 1125899906842624.0
    requires Abs(y - c) <= Abs(c) / 4503599627370495.0 + 1.0 / 1000000000000000000000000000.0
    ensures Abs(y - c) < 0.5
  {
  }

  /** Up to here the error bound of doubles alone keeps an amount within the tolerance of the exact
      conversion; a fused multiplication saves one of the two roundings. */
  function ExactBound(fused: bool): nat { if fused then 9_007_200 else 4_503_600 }

  /** Small amounts, and whole units, which are exact at every step. */
  predicate Keeps(p: Platform, c: nat) { c <= ExactBound(p.fused) || c % 100 == 0 }

  /** The tolerance of the exact conversion, as a double. */
  predicate Tolerance(t: real) {
    0.999999999 / 1000000000.0 <= t <= 1.000000001 / 1000000000.0
  }

  lemma {:induction false} ThresholdClose(p: Platform)
    requires Rounds(p.fl)
    ensures Tolerance(p.fl(1.0 / 1000000000.0))
  {
    Rounded(p, 1.0 / 1000000000.0);
  }

  lemma {:induction false} UnfusedWithin(c: real, d: real, r: real, t: real)
    requires 0.0 <= c <= 4503599.0 && Near(r, d) && Tolerance(t)
    requires Abs(d) <= c / 4503599627370495.0 + 1.0 / 1000000000000000000000000000.0
    ensures Abs(r) < t
  {
  }

  lemma {:induction false} FusedWithin(c: real, d: real, r: real, t: real)
    requires 0.0 <= c <= 9007199.0 && Near(r, d) && Tolerance(t)
    requires Abs(d) <= c / 9007199254740992.0 + 1.0 / 1000000000000000000000000000.0
    ensures Abs(r) < t
  {
  }

  lemma {:induction false} ExcessSmall(p: Platform, c: nat)
    requires Rounds(p.fl) && c < ExactBound(p.fused)
    ensures Excess(p, FromCents(p, c), c) < p.fl(1.0 / 1000000000.0)
  {
    CentsClose(p, c);
    ThresholdClose(p);
    Whole(p, c);
    var a := FromCents(p, c);
    if p.fused {
      Rounded(p, a * 100.0 - c as real);
      FusedWithin(c as real, a * 100.0 - c as real, p.fl(a * 100.0 - c as real), p.fl(1.0 / 1000000000.0));
    } else {
      var d := p.fl(a * 100.0) - c as real;
      Rounded(p, d);
      UnfusedWithin(c as real, d, p.fl(d), p.fl(1.0 / 1000000000.0));
    }
  }

  /** Whole units pass without any rounding. */
  lemma {:induction false} WholeUnits(p: Platform, c: nat)
    requires Rounds(p.fl) && c <= TWO_TO_50 && c % 100 == 0
    ensures Excess(p, FromCents(p, c), c) < p.fl(1.0 / 1000000000.0)
  {
    Whole(p, c);
    Whole(p, c / 100);
    assert c as real / 100.0 == (c / 100) as real by { assert c == 100 * (c / 100); }
    assert FromCents(p, c) * 100.0 == c as real;
    Whole(p, 0);
    assert c as real - c as real == 0 as real;
    ThresholdClose(p);
  }

  lemma {:induction false} FromCentsSign(p: Platform, c: int)
    requires Rounds(p.fl) && -TWO_TO_50 <= c <= TWO_TO_50
    ensures FromCents(p, c) < 0.0 <==> c < 0
  {
    Whole(p, c);
    if c == 0 {
      assert p.fl(0 as real) == 0.0;
    } else {
      Rounded(p, c as real / 100.0);
      SameSign(c as real, FromCents(p, c));
    }
  }

  lemma {:induction false} SameSign(c: real, a: real)
    requires Near(a, c / 100.0) && Abs(c) >= 1.0
    ensures a < 0.0 <==> c < 0.0
  {
  }

  /** Amounts up to the bound, and whole units of any size, are accepted as exactly their cents;
      negative ones are refused. */
  lemma {:induction false} ExactRoundTrip(p: Platform, c: int)
    requires Rounds(p.fl) && -TWO_TO_50 <= c <= TWO_TO_50 && (c >= 0 ==> Keeps(p, c))
    ensures ToCentsExact(p, Finite(FromCents(p, c))) == if c >= 0 then Ok(c) else Err(INEXACT_AMOUNT)
  {
    CentsRoundTrip(p, c);
    FromCentsSign(p, c);
    if c >= 0 {
      if c % 100 == 0 { WholeUnits(p, c); } else { ExcessSmall(p, c); }
    }
  }

  // ---- the bound is exact ----

  /** A rounding that errs upwards as far as it may. */
  function Upward(): real -> real {
    (x: real) => if x.Floor as real == x then x else x + x / 9007199254740992.0
  }

  lemma {:induction false} UpwardRounds()
    ensures Rounds(Upward())
  {
    forall x | Abs(x) <= 9223372036854775808.0 ensures Near(Upward()(x), x) {
      if x.Floor as real != x { assert Upward()(x) - x == x / 9007199254740992.0; }
    }
    forall n | -TWO_TO_53 <= n <= TWO_TO_53 ensures Exact(Upward(), n) {
      assert (n as real).Floor == n;
    }
  }

  lemma {:induction false} NotWhole(x: real, n: int)
    requires n as real < x < n as real + 1.0
    ensures Upward()(x) == x + x / 9007199254740992.0
  {
    FloorBetween(x, n);
  }

  lemma {:induction false} FloorBetween(x: real, n: int)
    requires n as real < x < n as real + 1.0
    ensures x.Floor == n
  {
    var k := x.Floor;
    assert k as real <= x < k as real + 1.0;
    assert (k - n) as real == k as real - n as real;
    assert -1.0 < (k - n) as real < 1.0;
  }

  lemma {:induction false} CentsNotUnits(c: nat)
    requires c % 100 != 0
    ensures (c / 100) as real < c as real / 100.0 < (c / 100) as real + 1.0
  {
    var q := c / 100;
    assert 100 * q < c < 100 * q + 100;
    assert 100.0 * q as real < c as real < 100.0 * q as real + 100.0;
  }

  /** How far the upward rounding moves an amount that is not whole units, before and after the
      second multiplication is rounded. */
  lemma {:induction false} UpwardSteps(c: nat, a: real)
    requires c % 100 != 0 && 1 <= c <= TWO_TO_50 && a == Upward()(c as real / 100.0)
    ensures a * 100.0 == c as real + c as real / 9007199254740992.0
    ensures c as real < a * 100.0 < c as real + 1.0
    ensures c as real + c as real / 4503599627370496.0 <= Upward()(a * 100.0) < c as real + 1.0
  {
    CentsNotUnits(c);
    NotWhole(c as real / 100.0, c / 100);
    NotWhole(a * 100.0, c);
  }

  lemma {:induction false} UpwardTooFar(d: real, c: nat, fused: bool)
    requires c > ExactBound(fused) && 0.0 < d < 1.0
    requires if fused then d >= c as real / 9007199254740992.0 else d >= c as real / 4503599627370496.0
    ensures Upward()(d) >= Upward()(1.0 / 1000000000.0)
  {
    NotWhole(d, 0);
    NotWhole(1.0 / 1000000000.0, 0);
    assert d >= 1.0 / 1000000000.0;
  }

  lemma {:induction false} UpwardRefuses(p: Platform, c: nat)
    requires p.fl == Upward() && c <= TWO_TO_50 && !Keeps(p, c)
    ensures ToCentsExact(p, Finite(FromCents(p, c))) == Err(INEXACT_AMOUNT)
  {
    UpwardRounds();
    CentsRoundTrip(p, c);
    Whole(p, c);
    var a := FromCents(p, c);
    UpwardSteps(c, a);
    var d := if p.fused then a * 100.0 - c as real else p.fl(a * 100.0) - c as real;
    UpwardTooFar(d, c, p.fused);
    NotWhole(d, 0);
  }

  /** The exact condition: a non-negative amount of cents is accepted under every rounding within the
      error bound of doubles if and only if it is at most the bound or whole units. */
  lemma {:induction false} ExactUnderEveryRounding(fused: bool, c: nat)
    requires c <= TWO_TO_50
    ensures (forall p: Platform :: Rounds(p.fl) && p.fused == fused ==>
               ToCentsExact(p, Finite(FromCents(p, c))) == Ok(c))
       <==> c <= ExactBound(fused) || c % 100 == 0
  {
    if c <= ExactBound(fused) || c % 100 == 0 {
      forall p: Platform | Rounds(p.fl) && p.fused == fused
        ensures ToCentsExact(p, Finite(FromCents(p, c))) == Ok(c)
      {
        ExactRoundTrip(p, c);
      }
    } else {
      var p := Platform(Upward(), fused, n => n, s => None);
      UpwardRounds();
      UpwardRefuses(p, c);
    }
  }

  // ---- what is refused ----

  lemma {:induction false} TenthsApart(n: nat, c: int)
    requires n % 10 != 0
    ensures Abs(n as real / 10.0 - c as real) >= 0.1
  {
    if n < 10 * c {
      assert n as real + 1.0 <= 10.0 * c as real;
    } else {
      assert n as real >= 10.0 * c as real + 1.0;
    }
  }

  lemma {:induction false} MillsClose(x: real, a: real, y: real)
    requires 0.0 <= x <= 140737488355328.0 && Near(a, x / 100.0) && Near(y, a * 100.0)
    ensures Abs(a * 100.0 - x) < 0.04 && Abs(y - x) < 0.04
  {
  }

  lemma {:induction false} NotTolerated(d: real, r: real, t: real)
    requires Near(r, d) && 0.05 < Abs(d) <= 10.0 && Tolerance(t)
    ensures Abs(r) >= t
  {
  }

  lemma {:induction false} RoundBounds(x: real)
    ensures Abs(x - Round(x) as real) <= 0.5
  {
  }

  lemma {:induction false} FarRefused(p: Platform, a: real, c: int)
    requires Rounds(p.fl) && -1 <= c <= TWO_TO_50 && ToCents(p, a) == c
    requires 0.05 < Abs(a * 100.0 - c as real) <= 10.0 && 0.05 < Abs(p.fl(a * 100.0) - c as real) <= 10.0
    ensures ToCentsExact(p, Finite(a)) == Err(INEXACT_AMOUNT)
  {
    Whole(p, c);
    var d := if p.fused then a * 100.0 - c as real else p.fl(a * 100.0) - c as real;
    Rounded(p, d);
    ThresholdClose(p);
    NotTolerated(d, p.fl(d), p.fl(1.0 / 1000000000.0));
  }

  /** Both roundings stay close to the amount. */
  lemma {:induction false} MillsNear(p: Platform, x: real)
    requires Rounds(p.fl) && 0.0 <= x <= 140737488355328.0
    ensures var a := p.fl(x / 100.0); Abs(a * 100.0 - x) < 0.04 && Abs(p.fl(a * 100.0) - x) < 0.04
  {
    Rounded(p, x / 100.0);
    var a := p.fl(x / 100.0);
    MillsBounded(x, a);
    Rounded(p, a * 100.0);
    MillsClose(x, a, p.fl(a * 100.0));
  }

  lemma {:induction false} MillsFar(p: Platform, n: nat, x: real)
    requires Rounds(p.fl) && n <= 10 * TWO_TO_47 && n % 10 != 0 && x == n as real / 10.0
    ensures var a := p.fl(x / 100.0); var c := Round(p.fl(a * 100.0));
      && -1 <= c <= TWO_TO_50
      && 0.05 < Abs(a * 100.0 - c as real) <= 10.0 && 0.05 < Abs(p.fl(a * 100.0) - c as real) <= 10.0
  {
    MillsNear(p, x);
    var a := p.fl(x / 100.0);
    var c := Round(p.fl(a * 100.0));
    RoundBounds(p.fl(a * 100.0));
    TenthsApart(n, c);
    FarApart(x, a * 100.0, p.fl(a * 100.0), c as real);
    WithinCents(x, p.fl(a * 100.0), c);
  }

  lemma {:induction false} FarApart(x: real, a: real, y: real, c: real)
    requires Abs(a - x) < 0.04 && Abs(y - x) < 0.04 && Abs(x - c) >= 0.1 && Abs(y - c) <= 0.5
    ensures 0.05 < Abs(a - c) <= 10.0 && 0.05 < Abs(y - c) <= 10.0
  {
  }

  lemma {:induction false} WithinCents(x: real, y: real, c: int)
    requires 0.0 <= x <= 140737488355328.0 && Abs(y - x) < 0.04 && Abs(y - c as real) <= 0.5
    ensures -1 <= c <= TWO_TO_50
  {
  }

  /** An amount with a third decimal is refused: it never becomes cents by rounding. */
  lemma {:induction false} ThirdDecimalRefused(p: Platform, n: nat)
    requires Rounds(p.fl) && n <= 10 * TWO_TO_47 && n % 10 != 0
    ensures ToCentsExact(p, Finite(p.fl(n as real / 1000.0))) == Err(INEXACT_AMOUNT)
  {
    var x := n as real / 10.0;
    assert n as real / 1000.0 == x / 100.0;
    MillsFar(p, n, x);
    FarRefused(p, p.fl(x / 100.0), ToCents(p, p.fl(x / 100.0)));
  }

  lemma {:induction false} MillsBounded(x: real, a: real)
    requires 0.0 <= x <= 140737488355328.0 && Near(a, x / 100.0)
    ensures Abs(a * 100.0) <= 140737488355329.0
  {
  }

  // ---- text ----

  function TwoDigits(n: nat): string
    requires n < 100
  {
    [DigitOf(n / 10), DigitOf(n % 10)]
  }

  /** Nearest integer, halves to even. */
  function RoundEven(x: real): int {
    var n := x.Floor;
    if x - n as real < 0.5 then n
    else if x - n as real > 0.5 then n + 1
    else if n % 2 == 0 then n else n + 1
  }

  /** Printing rounds to a nearest whole number, of two to the even one. */
  lemma {:induction false} RoundEvenMeans(x: real)
    ensures Abs(RoundEven(x) as real - x) <= 0.5
    ensures Abs(RoundEven(x) as real - x) == 0.5 ==> RoundEven(x) % 2 == 0
  {
  }

  function Printed(n: nat): string { Digits(n / 100) + ("." + TwoDigits(n % 100)) }

  /** Digits with two decimals, correctly rounded. */
  function Fixed2(x: real): string {
    var n: nat := RoundEven(Abs(x) * 100.0);
    if x < 0.0 then "-" + Printed(n) else Printed(n)
  }

  function FormatCents(p: Platform, cents: int): string {
    Fixed2(FromCents(p, cents))
  }

  /** Length of the digits a text begins with. */
  function Lead(s: string): (n: nat)
    ensures n <= |s|
  {
    if s != "" && IsDigit(s[0]) then 1 + Lead(s[1..]) else 0
  }

  lemma {:induction false} LeadDigits(s: string)
    ensures AllDigits(s[..Lead(s)]) && (Lead(s) < |s| ==> !IsDigit(s[Lead(s)]))
  {
    if s != "" && IsDigit(s[0]) {
      LeadDigits(s[1..]);
      assert forall k :: 0 < k < Lead(s) ==> s[k] == s[1..][..Lead(s[1..])][k - 1];
    }
  }

  lemma {:induction false} LeadOf(a: string, rest: string)
    requires AllDigits(a) && (rest != "" ==> !IsDigit(rest[0]))
    ensures Lead(a + rest) == |a|
  {
    if a == "" {
      assert a + rest == rest;
    } else {
      assert (a + rest)[1..] == a[1..] + rest;
      LeadOf(a[1..], rest);
    }
  }

  /** The value of digits after the point. */
  function Fraction(d: string): real
    requires AllDigits(d)
  {
    if d == "" then 0.0 else ((d[0] as int - '0' as int) as real + Fraction(d[1..])) / 10.0
  }

  /** Digits followed by nothing, or by a point and digits; one digit there must be. */
  function Pointed(whole: string, rest: string): Option<real>
    requires AllDigits(whole)
  {
    if rest == "" then (if whole == "" then None else Some(Number(whole) as real))
    else if rest[0] == '.' && AllDigits(rest[1..]) && (whole != "" || |rest| > 1) then
      Some(Number(whole) as real + Fraction(rest[1..]))
    else None
  }

  function Unsigned(s: string): Option<real> {
    LeadDigits(s);
    Pointed(s[..Lead(s)], s[Lead(s)..])
  }

  function Plain(s: string): Option<real> {
    if s != "" && (s[0] == '-' || s[0] == '+') then
      match Unsigned(s[1..])
      case None => None
      case Some(v) => Some(if s[0] == '-' then -v else v)
    else Unsigned(s)
  }

  /** The double nearest to the number a text stands for. */
  function ParseFloat(p: Platform, s: string): Option<Float> {
    match Plain(s)
    case Some(v) => Some(Finite(p.fl(v)))
    case None => p.other(s)
  }

  function ParseCents(p: Platform, value: string): Result<int> {
    var clean := Trim(value);
    if clean == "" then Err("empty amount")
    else
      match ParseFloat(p, clean)
      case None => Err("invalid syntax")
      case Some(amount) => ToCentsExact(p, amount)
  }

  lemma {:induction false} PrintedClose(c: real, a: real)
    requires Abs(c) <= 1125899906842624.0 && (a < 0.0 <==> c < 0.0)
    requires Abs(a * 100.0 - c) <= Abs(c) / 9007199254740992.0 + 1.0 / 1000000000000000000000000000.0
    ensures Abs(Abs(a) * 100.0 - Abs(c)) < 0.5
  {
  }

  lemma {:induction false} RoundEvenNear(x: real, n: int)
    requires Abs(x - n as real) < 0.5
    ensures RoundEven(x) == n
  {
  }

  lemma {:induction false} Fixed2Prints(a: real, n: nat)
    requires Abs(Abs(a) * 100.0 - n as real) < 0.5
    ensures Fixed2(a) == if a < 0.0 then "-" + Printed(n) else Printed(n)
  {
    RoundEvenNear(Abs(a) * 100.0, n);
  }

  lemma {:induction false} PrintedNear(p: Platform, c: int)
    requires Rounds(p.fl) && -TWO_TO_50 <= c <= TWO_TO_50
    ensures Abs(Abs(FromCents(p, c)) * 100.0 - Abs(c as real)) < 0.5
  {
    CentsClose(p, c);
    FromCentsSign(p, c);
    PrintedClose(c as real, FromCents(p, c));
  }

  /** The digits printed for cents are the cents themselves. */
  lemma {:induction false} FormatExact(p: Platform, c: int)
    requires Rounds(p.fl) && -TWO_TO_50 <= c <= TWO_TO_50
    ensures var n := if c < 0 then -c else c;
      FormatCents(p, c) == if c < 0 then "-" + Printed(n) else Printed(n)
  {
    PrintedNear(p, c);
    FromCentsSign(p, c);
    Fixed2Prints(FromCents(p, c), if c < 0 then -c else c);
  }

  lemma {:induction false} TwoDigitsRead(n: nat)
    requires n < 100
    ensures AllDigits(TwoDigits(n)) && Fraction(TwoDigits(n)) == n as real / 100.0
  {
    var s := TwoDigits(n);
    assert s[1..] == [DigitOf(n % 10)] && s[1..][1..] == "";
    assert Fraction(s[1..]) == (n % 10) as real / 10.0;
    assert n as real == 10.0 * (n / 10) as real + (n % 10) as real;
  }

  lemma {:induction false} PointedOf(a: string, d: string)
    requires a != "" && AllDigits(a) && AllDigits(d)
    ensures Pointed(a, "." + d) == Some(Number(a) as real + Fraction(d))
  {
    assert ("." + d)[1..] == d;
  }

  lemma {:induction false} UnsignedOf(a: string, d: string)
    requires a != "" && AllDigits(a) && AllDigits(d)
    ensures Unsigned(a + ("." + d)) == Some(Number(a) as real + Fraction(d))
  {
    LeadOf(a, "." + d);
    PointedOf(a, d);
    var s := a + ("." + d);
    assert s[..|a|] == a && s[|a|..] == "." + d;
  }

  lemma {:induction false} Hundredths(n: nat)
    ensures (n / 100) as real + (n % 100) as real / 100.0 == n as real / 100.0
  {
    assert n == 100 * (n / 100) + n % 100;
    assert n as real == 100.0 * (n / 100) as real + (n % 100) as real;
  }

  /** The text is an unsigned number with nothing to trim. */
  ghost predicate ReadsAs(u: string, v: real) {
    forall w {:trigger Unsigned(w)} :: w == u ==>
      Unsigned(w) == Some(v) && w != "" && IsDigit(w[0]) && IsDigit(w[|w| - 1])
  }

  lemma {:induction false} PointedReads(a: string, d: string, v: real)
    requires a != "" && AllDigits(a) && d != "" && AllDigits(d) && v == Number(a) as real + Fraction(d)
    ensures ReadsAs(a + ("." + d), v)
  {
    UnsignedOf(a, d);
    var u := a + ("." + d);
    assert u[0] == a[0] && u[|u| - 1] == d[|d| - 1];
  }

  lemma {:induction false} PrintedReads(n: nat, v: real)
    requires v == n as real / 100.0
    ensures ReadsAs(Printed(n), v)
  {
    DigitsRead(n / 100);
    TwoDigitsRead(n % 100);
    Hundredths(n);
    PointedReads(Digits(n / 100), TwoDigits(n % 100), v);
  }

  /** The whole text is a number, with nothing to trim. */
  predicate Means(s: string, v: real) {
    Plain(s) == Some(v) && Trim(s) == s && s != ""
  }

  lemma {:induction false} PlainPositive(u: string, v: real)
    requires ReadsAs(u, v)
    ensures Means(u, v)
  {
    assert Unsigned(u) == Some(v);
    TrimTrims(u);
  }

  lemma {:induction false} PlainNegative(u: string, v: real)
    requires ReadsAs(u, v)
    ensures Means("-" + u, -v)
  {
    assert Unsigned(u) == Some(v);
    assert ("-" + u)[1..] == u;
    TrimTrims("-" + u);
  }

  lemma {:induction false} ParsePlain(p: Platform, s: string, v: real)
    requires Means(s, v)
    ensures ParseCents(p, s) == ToCentsExact(p, Finite(p.fl(v)))
  {
  }

  ghost predicate ParsesTo(p: Platform, s: string, amount: real) {
    forall w {:trigger ParseCents(p, w)} :: w == s ==> ParseCents(p, w) == ToCentsExact(p, Finite(amount))
  }

  lemma {:induction false} ReadBack(p: Platform, u: string, v: real, s: string, w: real)
    requires ReadsAs(u, v) && ((s == u && w == v) || (s == "-" + u && w == -v))
    ensures ParsesTo(p, s, p.fl(w))
  {
    if s == u {
      PlainPositive(u, v);
    } else {
      PlainNegative(u, v);
    }
    ParsePlain(p, s, w);
  }

  lemma {:induction false} PrintedText(n: nat, v: real) returns (u: string)
    requires v == n as real / 100.0
    ensures u == Printed(n) && ReadsAs(u, v)
  {
    u := Printed(n);
    PrintedReads(n, v);
  }

  lemma {:induction false} PrintedForm(p: Platform, c: int, v: real) returns (u: string)
    requires Rounds(p.fl) && -TWO_TO_50 <= c <= TWO_TO_50 && v == Abs(c as real / 100.0)
    ensures ReadsAs(u, v) && FormatCents(p, c) == if c < 0 then "-" + u else u
  {
    FormatExact(p, c);
    u := PrintedText(if c < 0 then -c else c, v);
  }

  lemma {:induction false} CentsBack(p: Platform, c: int, u: string, v: real, s: string)
    requires p.fl(c as real) == c as real && v == Abs(c as real / 100.0)
    requires ReadsAs(u, v) && s == if c < 0 then "-" + u else u
    ensures ParsesTo(p, s, FromCents(p, c))
  {
    var w := c as real / 100.0;
    assert FromCents(p, c) == p.fl(w);
    ReadBack(p, u, v, s, w);
  }

  lemma {:induction false} FormatParsesTo(p: Platform, c: int)
    requires Rounds(p.fl) && -TWO_TO_50 <= c <= TWO_TO_50
    ensures ParsesTo(p, FormatCents(p, c), FromCents(p, c))
  {
    var v := Abs(c as real / 100.0);
    var u := PrintedForm(p, c, v);
    Whole(p, c);
    CentsBack(p, c, u, v, FormatCents(p, c));
  }

  /** What is printed reads back as the same number. */
  lemma {:induction false} FormatParses(p: Platform, c: int)
    requires Rounds(p.fl) && -TWO_TO_50 <= c <= TWO_TO_50
    ensures ParseCents(p, FormatCents(p, c)) == ToCentsExact(p, Finite(FromCents(p, c)))
  {
    FormatParsesTo(p, c);
  }

  /** Printed amounts up to the bound, and whole units, read back as their cents; negative ones are
      refused. */
  lemma {:induction false} TextRoundTrip(p: Platform, c: int)
    requires Rounds(p.fl) && -TWO_TO_50 <= c <= TWO_TO_50 && (c >= 0 ==> Keeps(p, c))
    ensures ParseCents(p, FormatCents(p, c)) == if c >= 0 then Ok(c) else Err(INEXACT_AMOUNT)
  {
    FormatParses(p, c);
    ExactRoundTrip(p, c);
  }

  // ---- doubles ----

  function Power2(n: nat): (r: nat)
    ensures r > 0
  {
    if n == 0 then 1 else 2 * Power2(n - 1)
  }

  predicate Lands(fl: real -> real, x: real, m: int, k: nat) { fl(x) == m as real / Power2(k) as real }

  /** A number closer to m / 2^k than half a unit of its 53-bit mantissa m rounds to it. Below the
      least mantissa units are smaller, so it is left out, as are numbers near zero. */
  ghost predicate Nearest(fl: real -> real) {
    forall x, m, k: nat {:trigger Lands(fl, x, m, k)} ::
      4503599627370496 < m < TWO_TO_53 && k <= 1000 && Abs(x * Power2(k) as real - m as real) < 0.5 ==>
        Lands(fl, x, m, k)
  }

  lemma {:induction false} Powers()
    ensures Power2(29) == 536870912 && Power2(35) == 34359738368
  {
    assert Power2(10) == 1024;
    assert Power2(20) == 1048576;
  }

  /** 131072.14 as a double, and a hundred times it: one unit in the last place too much. */
  lemma {:induction false} Landings(p: Platform)
    requires Nearest(p.fl)
    ensures p.fl(131072.14) == 4503604437733868.0 / 34359738368.0
    ensures p.fl(4503604437733868.0 / 34359738368.0 * 100.0) == 13107214.0 + 1.0 / 536870912.0
  {
    Powers();
    assert Lands(p.fl, 131072.14, 4503604437733868, 35);
    assert Lands(p.fl, 4503604437733868.0 / 34359738368.0 * 100.0, 7036881933959169, 29);
  }

  lemma {:induction false} OneUnitIsTooMuch(r: real, t: real)
    requires Near(r, 1.0 / 536870912.0) && Tolerance(t)
    ensures Abs(r) >= t
  {
  }

  /** With doubles themselves, 131072.14 has two decimals and yet is refused, although the plain
      conversion gives the right cents. */
  lemma {:induction false} ExactFailsAbove(p: Platform)
    requires Rounds(p.fl) && Nearest(p.fl) && !p.fused
    ensures ToCentsExact(p, Finite(FromCents(p, 13107214))) == Err(INEXACT_AMOUNT)
    ensures ToCents(p, FromCents(p, 13107214)) == 13107214
  {
    CentsRoundTrip(p, 13107214);
    Whole(p, 13107214);
    Landings(p);
    assert FromCents(p, 13107214) == p.fl(131072.14);
    Rounded(p, 1.0 / 536870912.0);
    ThresholdClose(p);
    OneUnitIsTooMuch(p.fl(1.0 / 536870912.0), p.fl(1.0 / 1000000000.0));
  }

  // ---- which amounts doubles accept ----

  predicate WholeNumber(x: real) { x.Floor as real == x }

  /** A number of at least 2^52 units of 2^-k is stored in whole units; below 2^53 of them it is stored
      within half a unit. */
  predicate Stored(fl: real -> real, x: real, k: nat) {
    var units, stored := x * Power2(k) as real, fl(x) * Power2(k) as real;
    && (4503599627370496.0 <= units ==> WholeNumber(stored))
    && (4503599627370496.0 <= units <= 9007199254740992.0 ==> Abs(stored - units) <= 0.5)
  }

  /** The grid of doubles: 53 binary digits, rounded to nearest. */
  ghost predicate Doubles(fl: real -> real) {
    forall x, k: nat {:trigger Stored(fl, x, k)} ::
      0.0 <= x <= 9223372036854775808.0 && k <= 1000 ==> Stored(fl, x, k)
  }

  const TWO_TO_23 := 8388608

  lemma {:induction false} PowersOnGrid()
    ensures Power2(29) == 536870912 && Power2(30) == 1073741824 && Power2(36) == 68719476736
  {
    Powers();
    assert Power2(36) == 2 * Power2(35);
  }

  lemma {:induction false} StoredInUnits(fl: real -> real, x: real, k: nat, unit: nat)
    requires Doubles(fl) && k <= 1000 && unit == Power2(k)
    requires 0.0 <= x <= 9223372036854775808.0 && 4503599627370496.0 <= x * unit as real
    ensures WholeNumber(fl(x) * unit as real)
    ensures x * unit as real <= 9007199254740992.0 ==> Abs(fl(x) * unit as real - x * unit as real) <= 0.5
  {
    assert Stored(fl, x, k);
    var units, stored := x * Power2(k) as real, fl(x) * Power2(k) as real;
    assert units == x * unit as real && stored == fl(x) * unit as real;
  }

  /** The distance to a whole number is a whole number of units, too. */
  lemma {:induction false} DistanceInUnits(y: real, c: int, unit: nat) returns (m: int)
    requires WholeNumber(y * unit as real)
    ensures (y - c as real) * unit as real == m as real
  {
    m := (y * unit as real).Floor - c * unit;
    assert (c * unit) as real == c as real * unit as real;
  }

  /** An unfused amount is accepted when what is left of it rounds below the tolerance. */
  lemma {:induction false} AcceptedByDistance(p: Platform, c: nat)
    requires Rounds(p.fl) && !p.fused && c <= TWO_TO_50
    ensures var d := p.fl(FromCents(p, c) * 100.0) - c as real;
      && ToCentsExact(p, Finite(FromCents(p, c))).Ok? <==> Abs(p.fl(d)) < p.fl(1.0 / 1000000000.0)
    ensures ToCentsExact(p, Finite(FromCents(p, c))).Ok? ==> ToCentsExact(p, Finite(FromCents(p, c))) == Ok(c)
  {
    CentsRoundTrip(p, c);
    FromCentsSign(p, c);
    Whole(p, c);
  }

  lemma {:induction false} HalfATolerance(d: real, r: real, t: real, m: int)
    requires Near(r, d) && Tolerance(t) && d * 1073741824.0 == m as real && -1 <= m <= 1
    ensures Abs(r) < t
  {
  }

  lemma {:induction false} TwiceATolerance(d: real, r: real, t: real, m: int)
    requires Near(r, d) && Tolerance(t) && d * 536870912.0 == m as real && m != 0
    ensures Abs(r) >= t
  {
    assert Abs(d) >= 1.0 / 536870912.0;
  }

  /** A hundred times the amount, before it is rounded. */
  lemma {:induction false} CentsNear(p: Platform, c: nat)
    requires Rounds(p.fl) && c <= TWO_TO_50
    ensures Abs(FromCents(p, c) * 100.0 - c as real)
         <= Abs(c as real) / 9007199254740992.0 + 1.0 / 1000000000000000000000000000.0
  {
    CentsClose(p, c);
  }

  /** Below 2^23 cents the amount is off by at most one unit of 2^-30. */
  lemma {:induction false} OneUnitOff(p: Platform, c: nat) returns (m: int)
    requires Rounds(p.fl) && Doubles(p.fl) && 4_503_600 <= c < TWO_TO_23
    ensures (p.fl(FromCents(p, c) * 100.0) - c as real) * 1073741824.0 == m as real && -1 <= m <= 1
  {
    var x := FromCents(p, c) * 100.0;
    CentsNear(p, c);
    UnitsNear(x, c);
    assert Power2(30) == 1073741824 by { PowersOnGrid(); }
    StoredInUnits(p.fl, x, 30, 1073741824);
    m := DistanceInUnits(p.fl(x), c, 1073741824);
    AtMostOne(x, p.fl(x), c, m);
  }

  lemma {:induction false} UnitsNear(x: real, c: nat)
    requires 4_503_600 <= c < TWO_TO_23
    requires Abs(x - c as real) <= Abs(c as real) / 9007199254740992.0 + 1.0 / 1000000000000000000000000000.0
    ensures 4503599627370496.0 <= x * 1073741824.0 <= 9007199254740992.0
    ensures Abs(x * 1073741824.0 - c as real * 1073741824.0) <= 1.1
  {
  }

  lemma {:induction false} AtMostOne(x: real, y: real, c: nat, m: int)
    requires Abs(x * 1073741824.0 - c as real * 1073741824.0) <= 1.1
    requires Abs(y * 1073741824.0 - x * 1073741824.0) <= 0.5 && (y - c as real) * 1073741824.0 == m as real
    ensures -1 <= m <= 1
  {
    assert -2.0 < m as real < 2.0;
  }

  /** 83886.08 comes back without any error. */
  lemma {:induction false} AtTheBound(p: Platform)
    requires Rounds(p.fl) && Doubles(p.fl)
    ensures p.fl(FromCents(p, TWO_TO_23) * 100.0) == TWO_TO_23 as real
  {
    assert Power2(29) == 536870912 && Power2(36) == 68719476736 by { PowersOnGrid(); }
    Whole(p, TWO_TO_23);
    StoredInUnits(p.fl, 83886.08, 36, 68719476736);
    var a := p.fl(83886.08);
    WholeWithin(a * 68719476736.0, 5764607523034235);
    assert a * 100.0 == 8388608.0 + 12.0 / 68719476736.0;
    StoredInUnits(p.fl, a * 100.0, 29, 536870912);
    WholeWithin(p.fl(a * 100.0) * 536870912.0, 4503599627370496);
  }

  lemma {:induction false} WholeWithin(x: real, m: int)
    requires WholeNumber(x) && Abs(x - m as real) < 1.0
    ensures x == m as real
  {
    assert -1.0 < (x.Floor - m) as real < 1.0;
  }

  /** Beyond, what is off is off by whole units of 2^-29. */
  lemma {:induction false} UnitsOff(p: Platform, c: nat) returns (m: int)
    requires Rounds(p.fl) && Doubles(p.fl) && TWO_TO_23 < c <= TWO_TO_50
    ensures (p.fl(FromCents(p, c) * 100.0) - c as real) * 536870912.0 == m as real
  {
    var x := FromCents(p, c) * 100.0;
    CentsNear(p, c);
    BeyondGrid(x, c);
    assert Power2(29) == 536870912 by { PowersOnGrid(); }
    StoredInUnits(p.fl, x, 29, 536870912);
    assert WholeNumber(p.fl(x) * 536870912 as real);
    m := DistanceInUnits(p.fl(x), c, 536870912);
  }

  lemma {:induction false} BeyondGrid(x: real, c: nat)
    requires TWO_TO_23 < c <= TWO_TO_50
    requires Abs(x - c as real) <= Abs(c as real) / 9007199254740992.0 + 1.0 / 1000000000000000000000000000.0
    ensures 4503599627370496.0 <= x * 536870912.0 && 0.0 <= x <= 9223372036854775808.0
  {
    assert c as real >= 8388609.0;
    assert x >= c as real - 0.5;
  }

  /** With doubles, every amount up to 2^23 cents is accepted, and beyond exactly those that multiplying
      by a hundred brings back without error. */
  lemma {:induction false} ExactOnDoubles(p: Platform, c: nat)
    requires Rounds(p.fl) && Doubles(p.fl) && !p.fused && c <= TWO_TO_50
    ensures ToCentsExact(p, Finite(FromCents(p, c))) == Ok(c) <==>
      c <= TWO_TO_23 || p.fl(FromCents(p, c) * 100.0) == c as real
  {
    AcceptedByDistance(p, c);
    if c < 4_503_600 {
      ExactRoundTrip(p, c);
    } else {
      var d := p.fl(FromCents(p, c) * 100.0) - c as real;
      ThresholdClose(p);
      CentsClose(p, c);
      DistanceNear(p, c, d);
      Whole(p, 0);
      if c < TWO_TO_23 {
        var m := OneUnitOff(p, c);
        HalfATolerance(d, p.fl(d), p.fl(1.0 / 1000000000.0), m);
      } else if c == TWO_TO_23 {
        AtTheBound(p);
        assert d == 0 as real;
      } else {
        var m := UnitsOff(p, c);
        if m == 0 { assert d == 0 as real; }
        else { TwiceATolerance(d, p.fl(d), p.fl(1.0 / 1000000000.0), m); }
      }
    }
  }

  lemma {:induction false} DistanceNear(p: Platform, c: nat, d: real)
    requires Rounds(p.fl) && c <= TWO_TO_50
    requires Abs(d) <= Abs(c as real) / 4503599627370495.0 + 1.0 / 1000000000000000000000000000.0
    ensures Near(p.fl(d), d)
  {
    Rounded(p, d);
  }

  /** So do printed amounts. */
  lemma {:induction false} TextOnDoubles(p: Platform, c: nat)
    requires Rounds(p.fl) && Doubles(p.fl) && !p.fused && c <= TWO_TO_50
    ensures ParseCents(p, FormatCents(p, c)) == Ok(c) <==>
      c <= TWO_TO_23 || p.fl(FromCents(p, c) * 100.0) == c as real
  {
    FormatParses(p, c);
    ExactOnDoubles(p, c);
  }
}
