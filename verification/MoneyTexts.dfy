/** What amounts in texts stand for: every text of digits with an optional sign and point, not only
    those that are printed. */
module MoneyTexts {
  import opened Common
  import opened Decimal
  import opened Money
  import opened Text

  function Power10(n: nat): (r: nat)
    ensures r > 0
  {
    if n == 0 then 1 else 10 * Power10(n - 1)
  }

  /** The number that digits with `places` of them after the point stand for. */
  function Value(digits: string, places: nat): real
    requires AllDigits(digits)
  {
    Number(digits) as real / Power10(places) as real
  }

  lemma {:induction false} DigitsJoin(a: string, b: string)
    requires AllDigits(a) && AllDigits(b)
    ensures AllDigits(a + b)
  {
  }

  /** One more digit after the point. */
  lemma {:induction false} FractionNext(d: string, x: char)
    requires AllDigits(d) && IsDigit(x)
    ensures AllDigits(d + [x])
    ensures Fraction(d + [x]) == Fraction(d) + (x as int - '0' as int) as real / Power10(|d| + 1) as real
  {
    var s := d + [x];
    if d == "" {
      assert s[1..] == "" && Power10(1) == 10 * Power10(0);
    } else {
      assert s[0] == d[0] && s[1..] == d[1..] + [x];
      FractionNext(d[1..], x);
      TenthOf((x as int - '0' as int) as real, |d|);
    }
  }

  lemma {:induction false} TenthOf(x: real, n: nat)
    ensures x / Power10(n) as real / 10.0 == x / Power10(n + 1) as real
  {
    assert Power10(n + 1) as real == 10.0 * Power10(n) as real;
  }

  /** Digits before and after the point, read together. */
  lemma {:induction false} PointedValue(a: string, d: string)
    requires AllDigits(a) && AllDigits(d)
    ensures AllDigits(a + d) && Number(a) as real + Fraction(d) == Value(a + d, |d|)
  {
    DigitsJoin(a, d);
    if d == "" {
      assert a + d == a;
    } else {
      var init, x := d[..|d| - 1], d[|d| - 1];
      var digit := x as int - '0' as int;
      assert d == init + [x];
      PointedValue(a, init);
      FractionNext(init, x);
      assert (a + d)[..|a + d| - 1] == a + init;
      ValueNext(Number(a + init), digit, |init|);
    }
  }

  lemma {:induction false} ValueNext(m: nat, digit: int, n: nat)
    ensures m as real / Power10(n) as real + digit as real / Power10(n + 1) as real
         == (10 * m + digit) as real / Power10(n + 1) as real
  {
    var p := Power10(n) as real;
    assert Power10(n + 1) as real == 10.0 * p;
    assert m as real / p == (10.0 * m as real) / (10.0 * p);
  }

  /** Digits, with a point and more digits after it or without; one digit there must be. */
  function Written(a: string, point: bool, d: string): string { a + if point then "." + d else "" }

  predicate IsAmount(a: string, point: bool, d: string) {
    AllDigits(a) && AllDigits(d) && (a != "" || d != "") && (point || d == "")
  }

  lemma {:induction false} WrittenReads(a: string, point: bool, d: string)
    requires IsAmount(a, point, d)
    ensures AllDigits(a + d) && Unsigned(Written(a, point, d)) == Some(Value(a + d, |d|))
  {
    var rest := if point then "." + d else "";
    var s := Written(a, point, d);
    LeadOf(a, rest);
    assert s[..|a|] == a && s[|a|..] == rest;
    PointedValue(a, d);
    if point { assert rest[1..] == d; }
  }

  predicate IsSign(sign: string) { sign == "" || sign == "+" || sign == "-" }

  lemma {:induction false} SignedReads(sign: string, a: string, point: bool, d: string)
    requires IsSign(sign) && IsAmount(a, point, d)
    ensures var s := sign + Written(a, point, d); var v := Value(a + d, |d|);
      s != "" && Trimmed(s) && Plain(s) == Some(if sign == "-" then -v else v)
  {
    WrittenReads(a, point, d);
    WrittenEnds(a, point, d);
    SignedText(sign, Written(a, point, d), Value(a + d, |d|));
  }

  lemma {:induction false} SignedText(sign: string, u: string, v: real)
    requires IsSign(sign) && Unsigned(u) == Some(v)
    requires u != "" && (IsDigit(u[0]) || u[0] == '.') && (IsDigit(u[|u| - 1]) || u[|u| - 1] == '.')
    ensures var s := sign + u; s != "" && Trimmed(s) && Plain(s) == Some(if sign == "-" then -v else v)
  {
    var s := sign + u;
    assert s[|s| - 1] == u[|u| - 1];
    if sign == "" { assert s == u; } else { assert s[1..] == u; }
  }

  lemma {:induction false} WrittenEnds(a: string, point: bool, d: string)
    requires IsAmount(a, point, d)
    ensures var u := Written(a, point, d);
      && u != "" && (IsDigit(u[0]) || u[0] == '.') && (IsDigit(u[|u| - 1]) || u[|u| - 1] == '.')
  {
  }

  /** Whatever the sign, the digits and the space around them, a text is taken for the double nearest to
      the number that it writes. */
  lemma {:induction false} AmountParses(p: Platform, before: string, sign: string, a: string, point: bool, d: string,
                                        after: string)
    requires Blank(before) && Blank(after) && IsSign(sign) && IsAmount(a, point, d)
    ensures var v := Value(a + d, |d|);
      ParseCents(p, before + ((sign + Written(a, point, d)) + after))
        == ToCentsExact(p, Finite(p.fl(if sign == "-" then -v else v)))
  {
    SignedReads(sign, a, point, d);
    TrimPads(before, sign + Written(a, point, d), after);
  }

  /** Blank texts, and no others, are refused as empty. */
  lemma {:induction false} BlankRefused(p: Platform, s: string)
    ensures Blank(s) <==> ParseCents(p, s) == Err("empty amount")
  {
    TrimBlank(s);
  }

  /** A text that writes whole cents gives these cents, as 12.5 and +12.500 give 1250. */
  lemma {:induction false} WholeCentsParse(p: Platform, before: string, sign: string, a: string, point: bool, d: string,
                                           after: string, c: nat)
    requires Blank(before) && Blank(after) && (sign == "" || sign == "+") && IsAmount(a, point, d)
    requires Value(a + d, |d|) == c as real / 100.0
    requires Rounds(p.fl) && c <= TWO_TO_50 && Keeps(p, c)
    ensures ParseCents(p, before + ((sign + Written(a, point, d)) + after)) == Ok(c)
  {
    AmountParses(p, before, sign, a, point, d, after);
    Whole(p, c);
    ExactRoundTrip(p, c);
  }

  /** A text that writes thousandths which are not whole cents is refused. */
  lemma {:induction false} ThousandthsRefused(p: Platform, before: string, sign: string, a: string, point: bool,
                                              d: string, after: string, n: nat)
    requires Blank(before) && Blank(after) && (sign == "" || sign == "+") && IsAmount(a, point, d)
    requires Value(a + d, |d|) == n as real / 1000.0
    requires Rounds(p.fl) && n <= 10 * TWO_TO_47 && n % 10 != 0
    ensures ParseCents(p, before + ((sign + Written(a, point, d)) + after)) == Err(INEXACT_AMOUNT)
  {
    AmountParses(p, before, sign, a, point, d, after);
    ThirdDecimalRefused(p, n);
  }

  /** The text is an optional sign and an amount. */
  ghost predicate IsPlainAmount(s: string) {
    exists sign, a, point, d :: IsSign(sign) && IsAmount(a, point, d) && s == sign + Written(a, point, d)
  }

  lemma {:induction false} UnsignedShape(s: string) returns (a: string, point: bool, d: string)
    requires Unsigned(s).Some?
    ensures IsAmount(a, point, d) && s == Written(a, point, d)
  {
    LeadDigits(s);
    var rest := s[Lead(s)..];
    a, point, d := s[..Lead(s)], rest != "", if rest != "" then rest[1..] else "";
    assert s == a + rest;
    if rest != "" { assert rest == "." + d; }
  }

  lemma {:induction false} PlainShape(s: string)
    ensures Plain(s).Some? ==> IsPlainAmount(s)
  {
    if Plain(s).Some? {
      if s != "" && (s[0] == '-' || s[0] == '+') {
        var a, point, d := UnsignedShape(s[1..]);
        assert IsSign(s[..1]) && s == s[..1] + Written(a, point, d);
      } else {
        var a, point, d := UnsignedShape(s);
        assert IsSign("") && s == "" + Written(a, point, d);
      }
    }
  }

  /** Every other text is left to the platform's other spellings of numbers. */
  lemma {:induction false} OtherTexts(p: Platform, s: string)
    requires !Blank(s) && !IsPlainAmount(Trim(s))
    ensures ParseCents(p, s) == match p.other(Trim(s))
      case None => Err("invalid syntax")
      case Some(amount) => ToCentsExact(p, amount)
  {
    TrimBlank(s);
    PlainShape(Trim(s));
  }
}
