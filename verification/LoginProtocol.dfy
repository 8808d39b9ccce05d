/** Logins around the limiter. Asking the limiter and recording the outcome are two separate locked
    steps, so other attempts with the same key can pass in between. */
module LoginProtocol {
  import opened LoginLimiter

  // ---- one login, alone ----

  /** What the database and the password check say. */
  datatype Answer = UserMissing | WrongPassword | Matches | Unavailable | DefaultsFail

  datatype Response = Limited(wait: int) | Unauthorized | Unexpected | Token

  /** One login request from the limiter's point of view; the clock is read up to three times. */
  method Login(limiter: Limiter?, key: string, answer: Answer, asked: int, told: int, done: int) returns (r: Response)
    requires limiter != null ==> limiter.Valid() && limiter.clock <= asked <= told && asked <= done
    modifies if limiter == null then {} else {limiter}
    ensures limiter != null ==> limiter.Valid()
    // refused exactly when the full history says so, and a refusal counts nothing
    ensures limiter != null && !Allowed(old(limiter.history), key, limiter.max, limiter.window, asked) ==>
      && r == Limited(Wait(old(limiter.history), key, limiter.max, limiter.window, told))
      && limiter.history == old(limiter.history)
    ensures r.Limited? ==>
      limiter != null && !Allowed(old(limiter.history), key, limiter.max, limiter.window, asked)
    // otherwise the outcome alone decides the response and what is recorded
    ensures !r.Limited? ==>
      && (r.Token? <==> answer.Matches?)
      && (r.Unauthorized? <==> answer.UserMissing? || answer.WrongPassword?)
    ensures limiter != null && !r.Limited? ==>
      limiter.history == old(limiter.history)
        + (if r.Token? then [Success(key)] else if r.Unauthorized? then [Failure(key, done)] else [])
  {
    if limiter != null {
      var ok := limiter.Allow(key, asked);
      if !ok {
        var wait := limiter.RetryAfter(key, told);
        return Limited(wait);
      }
    }
    match answer {
      case UserMissing | WrongPassword =>
        if limiter != null { limiter.RecordFailure(key, done); }
        return Unauthorized;
      case Unavailable | DefaultsFail =>
        return Unexpected;
      case Matches =>
        if limiter != null { limiter.RecordSuccess(key); }
        return Token;
    }
  }

  // ---- many logins at once ----

  /** `flight[k]` attempts with key k are between Allow and their outcome. */
  datatype State = State(history: seq<Event>, flight: map<string, nat>, clock: int)

  datatype Step =
    | Begin(key: string, at: int)  // Allow, at the time the clock showed
    | Fail(key: string, at: int)   // RecordFailure
    | Succeed(key: string)         // RecordSuccess
    | Abandon(key: string)         // the database failed: nothing is recorded
    | Other(at: int)               // any other call: pruning, or an attempt that was refused

  datatype Limits = Limits(max: nat, window: int, together: nat)

  function InFlight(s: State, key: string): nat {
    if key in s.flight then s.flight[key] else 0
  }

  /** When a step can happen: the clock does not go back, an outcome belongs to an attempt in
      flight, Begin is let through by the limiter, and `together` bounds the attempts with one key. */
  predicate Enabled(s: State, e: Step, l: Limits) {
    match e
    case Begin(k, t) =>
      s.clock <= t && Allowed(s.history, k, l.max, l.window, t) && InFlight(s, k) < l.together
    case Fail(k, t) => s.clock <= t && InFlight(s, k) > 0
    case Succeed(k) => InFlight(s, k) > 0
    case Abandon(k) => InFlight(s, k) > 0
    case Other(t) => s.clock <= t
  }

  function Apply(s: State, e: Step): State {
    match e
    case Begin(k, t) => State(s.history, s.flight[k := InFlight(s, k) + 1], t)
    case Fail(k, t) => State(s.history + [Failure(k, t)], Land(s, k), t)
    case Succeed(k) => State(s.history + [Success(k)], Land(s, k), s.clock)
    case Abandon(k) => s.(flight := Land(s, k))
    case Other(t) => s.(clock := t)
  }

  function Land(s: State, key: string): map<string, nat> {
    s.flight[key := if InFlight(s, key) > 0 then InFlight(s, key) - 1 else 0]
  }

  /** Every step of the run is enabled where it happens. */
  predicate Possible(s: State, run: seq<Step>, l: Limits)
    decreases |run|
  {
    run == [] || (Enabled(s, run[0], l) && Possible(Apply(s, run[0]), run[1..], l))
  }

  function After(s: State, run: seq<Step>): State
    decreases |run|
  {
    if run == [] then s else After(Apply(s, run[0]), run[1..])
  }

  function Recorded(s: State, key: string, l: Limits): nat {
    var c := Counted(s.history, key, l.window);
    if c.Some? then c.value.failures else 0
  }

  /** Failures recorded in a window that is not over, together with the attempts that may still
      fail in it, stay within the bound; so do the failures of a window that is over. */
  predicate Bounded(s: State, key: string, l: Limits) {
    && InFlight(s, key) <= l.together
    && Recorded(s, key, l) <= l.max + l.together - 1
    && (Live(Counted(s.history, key, l.window), l.window, s.clock) ==>
          Recorded(s, key, l) + InFlight(s, key) <= l.max + l.together - 1)
  }

  /** In every run, with any interleaving, no window ever holds more than max + together - 1
      recorded failures of one key, however many keys are busy. */
  lemma {:induction false} RunsAreBounded(s: State, run: seq<Step>, key: string, l: Limits)
    requires l.max >= 1 && l.window > 0 && l.together >= 1
    requires Bounded(s, key, l) && Possible(s, run, l)
    ensures Bounded(After(s, run), key, l)
    decreases |run|
  {
    if run != [] {
      RunsAreBounded(Apply(s, run[0]), run[1..], key, l);
    }
  }

  lemma {:induction false} FailuresBounded(run: seq<Step>, key: string, l: Limits, start: int)
    requires l.max >= 1 && l.window > 0 && l.together >= 1
    requires Possible(State([], map[], start), run, l)
    ensures Recorded(After(State([], map[], start), run), key, l) <= l.max + l.together - 1
  {
    RunsAreBounded(State([], map[], start), run, key, l);
  }

  // ---- the bound is reached ----

  function Repeat(e: Step, n: nat): (r: seq<Step>)
    ensures |r| == n
  {
    if n == 0 then [] else [e] + Repeat(e, n - 1)
  }

  lemma {:induction false} Sequence(s: State, a: seq<Step>, b: seq<Step>, l: Limits)
    requires Possible(s, a, l) && Possible(After(s, a), b, l)
    ensures Possible(s, a + b, l) && After(s, a + b) == After(After(s, a), b)
    decreases |a|
  {
    if a == [] {
      assert a + b == b;
    } else {
      assert (a + b)[0] == a[0] && (a + b)[1..] == a[1..] + b;
      Sequence(Apply(s, a[0]), a[1..], b, l);
    }
  }

  /** `n` attempts in flight fail one after the other at one time. */
  lemma {:induction false} AllFail(s: State, key: string, n: nat, l: Limits)
    requires l.window > 0 && InFlight(s, key) == n
    requires var c := Counted(s.history, key, l.window); c.Some? ==> c.value.first == s.clock
    ensures var run := Repeat(Fail(key, s.clock), n); var s' := After(s, run);
      && Possible(s, run, l) && s'.clock == s.clock && InFlight(s', key) == 0
      && Recorded(s', key, l) == Recorded(s, key, l) + n
      && (var c := Counted(s'.history, key, l.window); c.Some? ==> c.value.first == s.clock)
    decreases n
  {
    if n > 0 {
      var s1 := Apply(s, Fail(key, s.clock));
      assert s1.history[..|s1.history| - 1] == s.history;
      AllFail(s1, key, n - 1, l);
    }
  }

  /** `n` more attempts pass the limiter before any of them has an outcome. */
  lemma {:induction false} AllBegin(s: State, key: string, n: nat, l: Limits)
    requires InFlight(s, key) + n <= l.together && Recorded(s, key, l) < l.max
    ensures var run := Repeat(Begin(key, s.clock), n); var s' := After(s, run);
      && Possible(s, run, l) && s'.history == s.history && s'.clock == s.clock
      && InFlight(s', key) == InFlight(s, key) + n
    decreases n
  {
    if n > 0 {
      AllBegin(Apply(s, Begin(key, s.clock)), key, n - 1, l);
    }
  }

  /** `n` attempts one after the other, each failing before the next begins. */
  lemma {:induction false} OneByOne(s: State, key: string, n: nat, l: Limits) returns (run: seq<Step>)
    requires l.window > 0 && l.together >= 1 && InFlight(s, key) == 0
    requires Recorded(s, key, l) + n <= l.max
    requires var c := Counted(s.history, key, l.window); c.Some? ==> c.value.first == s.clock
    ensures Possible(s, run, l)
    ensures var s' := After(s, run);
      && s'.clock == s.clock && InFlight(s', key) == 0 && Recorded(s', key, l) == Recorded(s, key, l) + n
      && (var c := Counted(s'.history, key, l.window); c.Some? ==> c.value.first == s.clock)
    decreases n
  {
    if n == 0 {
      run := [];
    } else {
      var once := Repeat(Begin(key, s.clock), 1);
      AllBegin(s, key, 1, l);
      AllFail(After(s, once), key, 1, l);
      Sequence(s, once, Repeat(Fail(key, s.clock), 1), l);
      var first := once + Repeat(Fail(key, s.clock), 1);
      var rest := OneByOne(After(s, first), key, n - 1, l);
      Sequence(s, first, rest, l);
      run := first + rest;
    }
  }

  /** No smaller bound holds: max - 1 failures in turn, then `together` attempts at once. */
  lemma {:induction false} BoundReached(key: string, l: Limits, start: int) returns (run: seq<Step>)
    requires l.max >= 1 && l.window > 0 && l.together >= 1
    ensures Possible(State([], map[], start), run, l)
    ensures Recorded(After(State([], map[], start), run), key, l) == l.max + l.together - 1
  {
    var s := State([], map[], start);
    run := OneByOne(s, key, l.max - 1, l);
    var s1 := After(s, run);
    var begins := Repeat(Begin(key, start), l.together);
    AllBegin(s1, key, l.together, l);
    Sequence(s, run, begins, l);
    var s2 := After(s1, begins);
    AllFail(s2, key, l.together, l);
    Sequence(s, run + begins, Repeat(Fail(key, start), l.together), l);
    run := run + begins + Repeat(Fail(key, start), l.together);
  }
}
