/** The import pipeline with the money conversions it really uses. */
module ImportMoney {
  import opened Common
  import opened Money
  import opened Import

  /** The amounts of the pipeline are converted on platform p. */
  ghost predicate Converts(env: ImportEnv, p: Platform) {
    && (forall x {:trigger env.ledger.exact(x)} :: env.ledger.exact(x) == Exactly(p, x))
    && (forall x {:trigger env.toCents(x)} :: env.toCents(x) == ToCents(p, x))
    && (forall c {:trigger env.fromCents(c)} :: env.fromCents(c) == FromCents(p, c))
  }

  function Exactly(p: Platform, x: real): Option<int> {
    match ToCentsExact(p, Finite(x))
    case Ok(cents) => Some(cents)
    case Err(_) => None
  }

  /** What the theorems about imports assume of the conversions holds of them. */
  lemma {:induction false} ConversionsAgree(env: ImportEnv, p: Platform)
    requires Converts(env, p)
    ensures Consistent(env)
  {
    forall x | env.ledger.exact(x).Some? ensures env.ledger.exact(x).value == env.toCents(x) {
      assert ToCentsExact(p, Finite(x)) == Ok(ToCents(p, x));
    }
  }

  /** The cents read from a row survive in its record: the ledger accepts the record's amount as
      exactly them, and the duplicate key holds them. */
  lemma {:induction false} ImportedCentsSurvive(env: ImportEnv, p: Platform, c: nat)
    requires Converts(env, p) && Rounds(p.fl) && c <= TWO_TO_50 && Keeps(p, c)
    ensures env.ledger.exact(env.fromCents(c)) == Some(c) && env.toCents(env.fromCents(c)) == c
  {
    ExactRoundTrip(p, c);
    CentsRoundTrip(p, c);
  }
}
