/** Decimal numbers as text. */
module Decimal {
  import opened Common

  predicate IsDigit(c: char) {
    '0' <= c <= '9'
  }

  predicate AllDigits(s: string) {
    forall k :: 0 <= k < |s| ==> IsDigit(s[k])
  }

  function DigitOf(n: nat): char
    requires n < 10
  {
    ['0', '1', '2', '3', '4', '5', '6', '7', '8', '9'][n]
  }

  /** A number printed in base ten. */
  function Digits(n: nat): string {
    if n < 10 then [DigitOf(n)] else Digits(n / 10) + [DigitOf(n % 10)]
  }

  /** The number a string of digits stands for. */
  function Number(s: string): nat
    requires AllDigits(s)
  {
    if s == "" then 0 else 10 * Number(s[..|s| - 1]) + (s[|s| - 1] as int - '0' as int)
  }

  lemma {:induction false} DigitReads(n: nat)
    requires n < 10
    ensures IsDigit(DigitOf(n)) && DigitOf(n) as int - '0' as int == n && (DigitOf(n) == '0' ==> n == 0)
  {
  }

  /** The text is the digits of the number. */
  ghost predicate Spells(s: string, n: nat) {
    forall w {:trigger Number(w)} :: w == s ==> AllDigits(w) && Number(w) == n
  }

  lemma {:induction false} SpellsNext(s: string, m: nat, n: nat)
    requires AllDigits(s) && Spells(s, m) && n < 10
    ensures AllDigits(s + [DigitOf(n)]) && Spells(s + [DigitOf(n)], 10 * m + n)
  {
    DigitReads(n);
    var t := s + [DigitOf(n)];
    assert t[..|t| - 1] == s && Number(s) == m;
  }

  /** No needless zero leads. */
  lemma {:induction false} DigitsLead(n: nat)
    ensures Digits(n) != "" && (Digits(n)[0] == '0' ==> n == 0)
  {
    if n >= 10 {
      DigitsLead(n / 10);
      LeadStays(Digits(n / 10), n % 10);
    } else {
      DigitReads(n);
    }
  }

  lemma {:induction false} LeadStays(s: string, n: nat)
    requires s != "" && n < 10
    ensures (s + [DigitOf(n)])[0] == s[0]
  {
  }

  lemma {:induction false} DigitsSpell(n: nat)
    ensures AllDigits(Digits(n)) && Spells(Digits(n), n)
  {
    if n >= 10 {
      DigitsSpell(n / 10);
      SpellsNext(Digits(n / 10), n / 10, n % 10);
    } else {
      assert Number("") == 0;
      SpellsNext("", 0, n);
      assert "" + [DigitOf(n)] == [DigitOf(n)];
    }
  }

  /** Printing gives digits without a needless zero, and reading them gives the number back. */
  lemma {:induction false} DigitsRead(n: nat)
    ensures Digits(n) != "" && AllDigits(Digits(n)) && Number(Digits(n)) == n
    ensures Digits(n)[0] == '0' ==> n == 0
  {
    DigitsLead(n);
    DigitsSpell(n);
  }

  /** Different numbers print differently. */
  lemma {:induction false} DigitsInjective(m: nat, n: nat)
    requires Digits(m) == Digits(n)
    ensures m == n
  {
    DigitsRead(m);
    DigitsRead(n);
  }

  /** strconv.ParseUint in base ten: digits only, at least one, and not above the largest value. */
  function ParseUint(s: string, max: nat): Option<nat> {
    if s != "" && AllDigits(s) && Number(s) <= max then Some(Number(s)) else None
  }

  predicate AllZeros(s: string) { forall k :: 0 <= k < |s| ==> s[k] == '0' }

  lemma {:induction false} ZerosAreZero(s: string)
    requires AllDigits(s)
    ensures Number(s) == 0 <==> AllZeros(s)
  {
    if s != "" {
      var t := s[..|s| - 1];
      ZerosAreZero(t);
      assert forall k :: 0 <= k < |t| ==> t[k] == s[k];
    }
  }

  lemma {:induction false} Unpad(s: string) returns (zeros: string)
    requires AllDigits(s) && Number(s) > 0
    ensures AllZeros(zeros) && s == zeros + Digits(Number(s))
  {
    var t, d := s[..|s| - 1], s[|s| - 1] as int - '0' as int;
    assert s == t + [DigitOf(d)];
    if Number(t) == 0 {
      ZerosAreZero(t);
      zeros := t;
    } else {
      zeros := Unpad(t);
      assert Number(s) / 10 == Number(t) && Number(s) % 10 == d;
      assert zeros + (Digits(Number(t)) + [DigitOf(d)]) == t + [DigitOf(d)];
    }
  }

  lemma {:induction false} Padded(zeros: string, n: nat)
    requires AllZeros(zeros)
    ensures AllDigits(zeros + Digits(n)) && Number(zeros + Digits(n)) == n
  {
    DigitsRead(n);
    var s := zeros + Digits(n);
    var t := s[..|s| - 1];
    if n < 10 {
      DigitReads(n);
      ZerosAreZero(zeros);
      assert t == zeros;
    } else {
      Padded(zeros, n / 10);
      DigitReads(n % 10);
      assert t == zeros + Digits(n / 10);
    }
  }

  /** A text of digits stands for a positive number exactly when it is the number, zeros before it. */
  lemma {:induction false} PaddedNumber(s: string, n: nat)
    requires n > 0
    ensures AllDigits(s) && Number(s) == n <==> exists zeros :: AllZeros(zeros) && s == zeros + Digits(n)
  {
    if AllDigits(s) && Number(s) == n { var zeros := Unpad(s); }
    if zeros :| AllZeros(zeros) && s == zeros + Digits(n) { Padded(zeros, n); }
  }
}
