/** The keys of cached reports. */
module ReportKeys {
  import opened Clock
  import opened Decimal
  import opened Text

  datatype Trend = Day | Week | Month

  function Name(t: Trend): string {
    match t case Day => "day" case Week => "week" case Month => "month"
  }

  /** Any other spelling means month. */
  function Normalise(value: string, lower: string -> string): Trend {
    var v := lower(Trim(value));
    if v == "day" || v == "daily" then Day
    else if v == "week" || v == "weekly" then Week
    else Month
  }

  /** A trend is daily, weekly, or whatever else it says monthly, up to case and surrounding space. */
  lemma {:induction false} NormaliseMeans(value: string, lower: string -> string)
    ensures Normalise(value, lower) == Day <==> lower(Trim(value)) in {"day", "daily"}
    ensures Normalise(value, lower) == Week <==> lower(Trim(value)) in {"week", "weekly"}
  {
  }

  /** The key normalises a trend that the report has normalised already: nothing changes. */
  lemma {:induction false} NormaliseAgain(value: string, lower: string -> string)
    requires forall t: Trend :: lower(Name(t)) == Name(t)
    ensures Normalise(Name(Normalise(value, lower)), lower) == Normalise(value, lower)
  {
    var name := Name(Normalise(value, lower));
    assert Trim(name) == name;
  }

  predicate WholeSecond(t: Instant) { t.nanos % NANOS_PER_SECOND == 0 }

  /** RFC 3339 without fractions: "Z" or a numeric offset in position 19. */
  predicate StampShape(s: string) {
    || (|s| == 20 && s[19] == 'Z')
    || (|s| == 25 && (s[19] == '+' || s[19] == '-'))
  }

  /** Times in the years that are printed with four digits, in a zone less than a day from UTC. */
  predicate Dated(t: Instant) {
    -62135510400 <= t.nanos / NANOS_PER_SECOND < 253402214400 && -1440 < t.offset < 1440
  }

  /** A printer of times that shows exactly the whole second and the zone. */
  ghost predicate Stamps(stamp: Instant -> string) {
    && (forall t :: Dated(t) ==> StampShape(stamp(t)))
    && (forall s, t :: Dated(s) && Dated(t) ==>
          (stamp(s) == stamp(t) <==> s.nanos / NANOS_PER_SECOND == t.nanos / NANOS_PER_SECOND && s.offset == t.offset))
  }

  /** What a report is asked for; trends are already normalised. */
  datatype Request = Request(user: nat, start: Instant, end: Instant, category: nat, account: nat, trend: Trend)

  predicate Ranged(r: Request) { Dated(r.start) && Dated(r.end) }

  const KEY_HEAD := "report:summary:u:"

  function Prefix(user: nat): string {
    KEY_HEAD + (Digits(user) + ":")
  }

  function Suffix(r: Request): string {
    if r.category == 0 && r.account == 0 && r.trend == Month then ""
    else ":category:" + (Digits(r.category) + (":account:" + (Digits(r.account) + (":trend:" + Name(r.trend)))))
  }

  /** What follows the user's number in a key. */
  function Tail(r: Request, stamp: Instant -> string): string {
    ":" + (stamp(r.start) + (":" + (stamp(r.end) + Suffix(r))))
  }

  function KeyOf(r: Request, stamp: Instant -> string): string {
    KEY_HEAD + (Digits(r.user) + Tail(r, stamp))
  }

  /** A key names the user, the range, and the filters unless there are none and the trend is monthly. */
  lemma {:induction false} KeySpells(r: Request, stamp: Instant -> string)
    ensures var filters :=
        if r.category == 0 && r.account == 0 && r.trend == Month then ""
        else
          var trend := match r.trend case Day => "day" case Week => "week" case Month => "month";
          ":category:" + (Digits(r.category) + (":account:" + (Digits(r.account) + (":trend:" + trend))));
      KeyOf(r, stamp)
        == "report:summary:u:" + (Digits(r.user) + (":" + (stamp(r.start) + (":" + (stamp(r.end) + filters)))))
    ensures Prefix(r.user) == "report:summary:u:" + (Digits(r.user) + ":")
  {
  }

  predicate StartsWith(s: string, prefix: string) {
    |prefix| <= |s| && s[..|prefix|] == prefix
  }

  // ---- texts that can be told apart from what follows ----

  lemma {:induction false} Cut(a: string, x: string, b: string, y: string)
    requires a + x == b + y && |a| == |b|
    ensures a == b && x == y
  {
    assert a == (a + x)[..|a|] && b == (b + y)[..|b|];
    assert x == (a + x)[|a|..] && y == (b + y)[|b|..];
  }

  /** A number ends where its colon stands. */
  lemma {:induction false} NumberEnds(m: nat, x: string, n: nat, y: string)
    requires Digits(m) + x == Digits(n) + y
    requires x != "" && y != "" && x[0] == ':' && y[0] == ':'
    ensures m == n && x == y
  {
    DigitsRead(m);
    DigitsRead(n);
    SameLength(Digits(m), x, Digits(n), y);
    Cut(Digits(m), x, Digits(n), y);
    DigitsInjective(m, n);
  }

  lemma {:induction false} SameLength(a: string, x: string, b: string, y: string)
    requires a + x == b + y && AllDigits(a) && AllDigits(b)
    requires x != "" && y != "" && x[0] == ':' && y[0] == ':'
    ensures |a| == |b|
  {
    var s := a + x;
    assert s[|a|] == ':' && s[|b|] == ':';
    assert forall k :: 0 <= k < |a| ==> s[k] == a[k] && s[k] != ':';
    assert forall k :: 0 <= k < |b| ==> s[k] == b[k] && s[k] != ':';
  }

  lemma {:induction false} StampEnds(a: string, x: string, b: string, y: string)
    requires StampShape(a) && StampShape(b) && a + x == b + y
    ensures a == b && x == y
  {
    assert (a + x)[19] == a[19] && (b + y)[19] == b[19];
    Cut(a, x, b, y);
  }

  lemma {:induction false} PrefixSpells(user: nat, more: string)
    ensures Prefix(user) + more == KEY_HEAD + (Digits(user) + (":" + more))
  {
    Associate(KEY_HEAD, Digits(user) + ":", more);
    Associate(Digits(user), ":", more);
  }

  lemma {:induction false} PrefixDecides(user: nat, more: string, r: Request, stamp: Instant -> string)
    requires Prefix(user) + more == KeyOf(r, stamp)
    ensures user == r.user
  {
    PrefixSpells(user, more);
    Cut(KEY_HEAD, Digits(user) + (":" + more), KEY_HEAD, Digits(r.user) + Tail(r, stamp));
    NumberEnds(user, ":" + more, r.user, Tail(r, stamp));
  }

  /** A user's prefix is the beginning of that user's keys and of no other's. */
  lemma {:induction false} PrefixOwn(user: nat, r: Request, stamp: Instant -> string)
    ensures StartsWith(KeyOf(r, stamp), Prefix(user)) <==> r.user == user
  {
    if r.user == user {
      assert Tail(r, stamp) == ":" + Tail(r, stamp)[1..];
    }
    if StartsWith(KeyOf(r, stamp), Prefix(user)) {
      var key := KeyOf(r, stamp);
      assert key == Prefix(user) + key[|Prefix(user)|..];
      PrefixDecides(user, key[|Prefix(user)|..], r, stamp);
    }
  }

  function SuffixTail(r: Request): string {
    ":account:" + (Digits(r.account) + (":trend:" + Name(r.trend)))
  }

  lemma {:induction false} SuffixDecides(r: Request, q: Request)
    requires Suffix(r) == Suffix(q)
    ensures r.category == q.category && r.account == q.account && r.trend == q.trend
  {
    if Suffix(r) != "" {
      Cut(":category:", Digits(r.category) + SuffixTail(r), ":category:", Digits(q.category) + SuffixTail(q));
      NumberEnds(r.category, SuffixTail(r), q.category, SuffixTail(q));
      Cut(":account:", Digits(r.account) + (":trend:" + Name(r.trend)),
          ":account:", Digits(q.account) + (":trend:" + Name(q.trend)));
      NumberEnds(r.account, ":trend:" + Name(r.trend), q.account, ":trend:" + Name(q.trend));
      Cut(":trend:", Name(r.trend), ":trend:", Name(q.trend));
    }
  }

  lemma {:induction false} TailDecides(r: Request, q: Request, stamp: Instant -> string)
    requires Stamps(stamp) && Ranged(r) && Ranged(q) && Tail(r, stamp) == Tail(q, stamp)
    ensures stamp(r.start) == stamp(q.start) && stamp(r.end) == stamp(q.end) && Suffix(r) == Suffix(q)
  {
    Cut(":", stamp(r.start) + (":" + (stamp(r.end) + Suffix(r))),
        ":", stamp(q.start) + (":" + (stamp(q.end) + Suffix(q))));
    StampEnds(stamp(r.start), ":" + (stamp(r.end) + Suffix(r)), stamp(q.start), ":" + (stamp(q.end) + Suffix(q)));
    Cut(":", stamp(r.end) + Suffix(r), ":", stamp(q.end) + Suffix(q));
    StampEnds(stamp(r.end), Suffix(r), stamp(q.end), Suffix(q));
  }

  /** Two requests share a key exactly when they differ at most below the second. */
  lemma {:induction false} KeyDecides(r: Request, q: Request, stamp: Instant -> string)
    requires Stamps(stamp) && Ranged(r) && Ranged(q)
    ensures KeyOf(r, stamp) == KeyOf(q, stamp) <==>
      (&& r.user == q.user && r.category == q.category && r.account == q.account && r.trend == q.trend
       && stamp(r.start) == stamp(q.start) && stamp(r.end) == stamp(q.end))
  {
    if KeyOf(r, stamp) == KeyOf(q, stamp) {
      Cut(KEY_HEAD, Digits(r.user) + Tail(r, stamp), KEY_HEAD, Digits(q.user) + Tail(q, stamp));
      NumberEnds(r.user, Tail(r, stamp), q.user, Tail(q, stamp));
      TailDecides(r, q, stamp);
      SuffixDecides(r, q);
    }
  }

  /** On whole seconds a key stands for one request. */
  lemma {:induction false} WholeSecondsDecide(r: Request, q: Request, stamp: Instant -> string)
    requires Stamps(stamp) && Ranged(r) && Ranged(q) && KeyOf(r, stamp) == KeyOf(q, stamp)
    requires WholeSecond(r.start) && WholeSecond(r.end) && WholeSecond(q.start) && WholeSecond(q.end)
    ensures r == q
  {
    KeyDecides(r, q, stamp);
  }
}
