/** Bearer tokens and their revocation: the time window in which a token parses, the expiring
    entries that logout and refresh write, and the requests that consult them. Times are
    nanoseconds. Clock readings and store operations of one request are separate events. */
module TokenRevocation {
  import opened Clock
  import opened Common
  import opened Decimal
  import opened Text

  // ---- tokens ----

  datatype Claims = Claims(subject: string, issuedAt: Option<int>, notBefore: Option<int>, expiresAt: Option<int>)

  /** `claims(t)` is what a token holds when its signature, algorithm, issuer and audience are right. */
  datatype Service = Service(leeway: nat, maxId: nat, claims: string -> Option<Claims>)

  /** The time window of a token: it must expire, and each bound is stretched by the leeway. */
  predicate InWindow(c: Claims, leeway: nat, now: int) {
    && c.expiresAt.Some? && now < c.expiresAt.value + leeway
    && (c.notBefore.Some? ==> c.notBefore.value - leeway <= now)
    && (c.issuedAt.Some? ==> c.issuedAt.value - leeway <= now)
  }

  function ParseClaims(s: Service, token: string, now: int): Option<Claims> {
    var c := s.claims(Trim(token));
    if c.Some? && InWindow(c.value, s.leeway, now) then c else None
  }

  /** The user a token stands for at a time. */
  function ParseToken(s: Service, token: string, now: int): Option<nat> {
    match ParseClaims(s, token, now)
    case None => None
    case Some(c) =>
      match ParseUint(Trim(c.subject), s.maxId)
      case None => None
      case Some(id) => if id == 0 then None else Some(id)
  }

  /** The time until which a revocation has to be remembered, for a token that parses. */
  function RevocationEnd(s: Service, token: string, now: int): Option<int> {
    match ParseClaims(s, token, now)
    case None => None
    case Some(c) => Some(c.expiresAt.value + s.leeway)
  }

  /** Token times are whole seconds. */
  function ToSecond(t: int): int { t - t % NANOS_PER_SECOND }

  /** What a new token holds. */
  function NewClaims(user: nat, now: int, ttl: int): Claims {
    Claims(Digits(user), Some(ToSecond(now)), Some(ToSecond(now)), Some(ToSecond(now + ttl)))
  }

  /** A new token stands for its user from the moment it is made until its last second and the
      leeway are over, and for nobody at any later time. */
  lemma {:induction false} NewTokenWindow(s: Service, token: string, user: nat, made: int, ttl: int, now: int)
    requires 0 < user <= s.maxId && s.claims(Trim(token)) == Some(NewClaims(user, made, ttl))
    ensures made <= now ==>
      ParseToken(s, token, now) == if now < ToSecond(made + ttl) + s.leeway then Some(user) else None
  {
    DigitsRead(user);
    var d := Digits(user);
    assert !IsSpace(d[0]) && !IsSpace(d[|d| - 1]);
    TrimTrims(d);
  }

  /** A token stands for a user exactly when its claims are right, their subject is the user's number up
      to leading zeros, and the time lies in the window, stretched by the leeway. */
  lemma {:induction false} ParseTokenExactly(s: Service, token: string, now: int, id: nat)
    ensures ParseToken(s, token, now) == Some(id) <==>
      && s.claims(Trim(token)).Some?
      && var c := s.claims(Trim(token)).value;
        && 0 < id <= s.maxId && (exists zeros :: AllZeros(zeros) && Trim(c.subject) == zeros + Digits(id))
        && c.expiresAt.Some? && now < c.expiresAt.value + s.leeway
        && (c.notBefore.Some? ==> c.notBefore.value <= now + s.leeway)
        && (c.issuedAt.Some? ==> c.issuedAt.value <= now + s.leeway)
  {
    if s.claims(Trim(token)).Some? && id > 0 { PaddedNumber(Trim(s.claims(Trim(token)).value.subject), id); }
  }

  // ---- the bearer header ----

  predicate IsTokenChar(c: char) {
    'A' <= c <= 'Z' || 'a' <= c <= 'z' || '0' <= c <= '9'
    || c == '-' || c == '.' || c == '_' || c == '~' || c == '+' || c == '/'
  }

  const MAX_TOKEN_LENGTH := 4096

  /** The token68 grammar of section 2.1 of RFC 6750: `n` token characters, then only padding. */
  predicate Token68(token: string, n: nat) {
    && 0 < n <= |token|
    && (forall k :: 0 <= k < n ==> IsTokenChar(token[k]))
    && (forall k :: n <= k < |token| ==> token[k] == '=')
  }

  /** n letters, digits and `-._~+/`, then only equals signs. */
  predicate BearerShape(token: string, n: nat) {
    && 0 < n <= |token|
    && (forall k :: 0 <= k < n ==>
          'a' <= token[k] <= 'z' || 'A' <= token[k] <= 'Z' || '0' <= token[k] <= '9' || token[k] in "-._~+/")
    && (forall k :: n <= k < |token| ==> token[k] in "=")
  }

  ghost predicate IsBearerToken(token: string) { |token| <= 4096 && exists n: nat :: BearerShape(token, n) }

  lemma {:induction false} BearerChar(c: char)
    ensures IsTokenChar(c) <==> 'a' <= c <= 'z' || 'A' <= c <= 'Z' || '0' <= c <= '9' || c in "-._~+/"
  {
    assert c in "-._~+/" <==> c == '-' || c == '.' || c == '_' || c == '~' || c == '+' || c == '/';
  }

  lemma {:induction false} BearerShapeMeans(token: string, n: nat)
    ensures BearerShape(token, n) <==> Token68(token, n)
  {
    forall k | 0 <= k < |token|
      ensures IsTokenChar(token[k]) <==>
        'a' <= token[k] <= 'z' || 'A' <= token[k] <= 'Z' || '0' <= token[k] <= '9' || token[k] in "-._~+/"
    {
      BearerChar(token[k]);
    }
  }

  lemma {:induction false} BearerTokenMeans(token: string)
    ensures IsBearerToken(token) <==> |token| <= MAX_TOKEN_LENGTH && exists n: nat :: Token68(token, n)
  {
    forall n: nat ensures BearerShape(token, n) <==> Token68(token, n) { BearerShapeMeans(token, n); }
  }

  /** The scan with its two flags accepts exactly the bounded token68 texts. */
  method ValidBearerTokenValue(token: string) returns (ok: bool)
    ensures ok <==> IsBearerToken(token)
  {
    BearerTokenMeans(token);
    if token == "" || |token| > MAX_TOKEN_LENGTH {
      return false;
    }
    var paddingStarted, tokenStarted := false, false;
    ghost var n := 0;
    for i := 0 to |token|
      invariant n <= i && (tokenStarted <==> 0 < n) && (paddingStarted <==> n < i)
      invariant i > 0 ==> tokenStarted
      invariant forall k :: 0 <= k < n ==> IsTokenChar(token[k])
      invariant forall k :: n <= k < i ==> token[k] == '='
    {
      if token[i] == '=' {
        if !tokenStarted {
          return false;
        }
        paddingStarted := true;
      } else {
        if paddingStarted || !IsTokenChar(token[i]) {
          assert forall m: nat :: Token68(token, m) ==> i < m;
          assert paddingStarted ==> !IsTokenChar(token[n]);
          return false;
        }
        tokenStarted := true;
        n := i + 1;
      }
    }
    assert Token68(token, n);
    return true;
  }

  // ---- the store ----

  /** Entries with the time at which each one ends. */
  type Store = map<string, int>

  predicate Present(store: Store, key: string, now: int) {
    key in store && now < store[key]
  }

  /** Keys are digests of tokens. Requests may come without a revoker, and a revoker without a store. */
  datatype Setting = Setting(service: Service, digest: string -> string, present: bool, enabled: bool)

  predicate Active(x: Setting) { x.present && x.enabled }

  /** When a revocation read its token, computed the time left and reached the store; `fails` says
      that the store did not take the entry. */
  datatype Writing = Writing(readAt: int, leftAt: int, setAt: int, fails: bool)

  /** When a request read its token and asked the store; `fails` says that the store did not answer. */
  datatype Asking = Asking(parsedAt: int, askedAt: int, fails: bool)

  predicate Ordered(w: Writing) { w.readAt <= w.leftAt <= w.setAt }

  datatype Answer = InvalidToken | StoreError | Done

  function Revoke(x: Setting, store: Store, token: string, w: Writing): (Answer, Store) {
    if !x.present then (Done, store)
    else
      match RevocationEnd(x.service, token, w.readAt)
      case None => (InvalidToken, store)
      case Some(end) =>
        var ttl := end - w.leftAt;
        if !x.enabled || ttl <= 0 then (Done, store)
        else if w.fails then (StoreError, store)
        else (Done, store[x.digest(token) := w.setAt + ttl])
  }

  /** A revocation is done without a revoker, and otherwise when the token parses and its entry is written
      or none is needed; the entry lasts for what is left of the token's window when it is computed. */
  lemma {:induction false} RevokeMeans(x: Setting, store: Store, token: string, w: Writing)
    ensures var c := ParseClaims(x.service, token, w.readAt); var (answer, next) := Revoke(x, store, token, w);
      if !x.present then answer == Done && next == store
      else if c.None? then answer == InvalidToken && next == store
      else
        var left := c.value.expiresAt.value + x.service.leeway - w.leftAt;
        if !x.enabled || left <= 0 then answer == Done && next == store
        else if w.fails then answer == StoreError && next == store
        else
          && answer == Done && next.Keys == store.Keys + {x.digest(token)}
          && next[x.digest(token)] == w.setAt + left
          && forall key :: key in store && key != x.digest(token) ==> next[key] == store[key]
  {
  }

  /** The user a request acts for, or nobody: a revoked token and a failing check both reject. */
  function Accept(x: Setting, store: Store, token: string, a: Asking): Option<nat> {
    match ParseToken(x.service, token, a.parsedAt)
    case None => None
    case Some(user) =>
      if Active(x) && (a.fails || Present(store, x.digest(token), a.askedAt)) then None else Some(user)
  }

  // ---- runs ----

  datatype Event = Request(token: string, asking: Asking) | Revocation(token: string, writing: Writing)

  function After(x: Setting, store: Store, run: seq<Event>): Store
    decreases |run|
  {
    if run == [] then store
    else match run[0]
      case Request(_, _) => After(x, store, run[1..])
      case Revocation(t, w) => After(x, Revoke(x, store, t, w).1, run[1..])
  }

  /** Writings take time in order and only `token` itself has its digest. */
  predicate Sane(x: Setting, run: seq<Event>, token: string) {
    forall k :: 0 <= k < |run| && run[k].Revocation? ==>
      Ordered(run[k].writing) && (x.digest(run[k].token) == x.digest(token) ==> run[k].token == token)
  }

  /** The entry of a revoked token lasts as long as the token could parse. */
  predicate Covered(x: Setting, store: Store, token: string, end: int) {
    x.digest(token) in store && end <= store[x.digest(token)]
  }

  lemma {:induction false} RunsKeepCovered(x: Setting, store: Store, run: seq<Event>, token: string, now: int)
    requires RevocationEnd(x.service, token, now).Some?
    requires Covered(x, store, token, RevocationEnd(x.service, token, now).value) && Sane(x, run, token)
    ensures Covered(x, After(x, store, run), token, RevocationEnd(x.service, token, now).value)
    decreases |run|
  {
    if run != [] {
      assert Sane(x, run[1..], token) by {
        assert forall k :: 0 <= k < |run[1..]| ==> run[1..][k] == run[k + 1];
      }
      match run[0]
      case Request(_, _) => RunsKeepCovered(x, store, run[1..], token, now);
      case Revocation(t, w) =>
        var store' := Revoke(x, store, t, w).1;
        assert x.digest(t) == x.digest(token) ==> t == token;
        RunsKeepCovered(x, store', run[1..], token, now);
    }
  }

  /** After a token is revoked with the store up, in every run that follows, no request with it is
      accepted that asks the store before the token's window ends, whenever it parsed the token;
      and none is accepted that parses the token later. A revocation so late that it writes
      nothing has a token that no longer parses. */
  lemma {:induction false} RevokedStaysOut(x: Setting, store: Store, token: string, w: Writing, run: seq<Event>,
                                           a: Asking)
    requires Active(x) && Ordered(w) && Revoke(x, store, token, w).0.Done?
    requires Sane(x, run, token)
    ensures var end := RevocationEnd(x.service, token, w.readAt).value;
      var store' := After(x, Revoke(x, store, token, w).1, run);
      && (w.leftAt < end && a.askedAt < end ==> Accept(x, store', token, a).None?)
      && (end <= a.parsedAt ==> Accept(x, store', token, a).None?)
  {
    var end := RevocationEnd(x.service, token, w.readAt).value;
    if w.leftAt < end {
      RunsKeepCovered(x, Revoke(x, store, token, w).1, run, token, w.readAt);
    }
  }

  /** The end of a token's entry after a run: what its last written revocation set. */
  function EntryEnd(x: Setting, run: seq<Event>, token: string, end: int): int
    decreases |run|
  {
    if run == [] then end
    else
      match run[0]
      case Request(_, _) => EntryEnd(x, run[1..], token, end)
      case Revocation(t, w) =>
        EntryEnd(x, run[1..], token, if Writes(x, t, w) && x.digest(t) == x.digest(token) then EndSet(x, t, w) else end)
  }

  /** Whether a revocation writes an entry, and the end it sets. */
  predicate Writes(x: Setting, token: string, w: Writing) {
    var end := RevocationEnd(x.service, token, w.readAt);
    Active(x) && end.Some? && w.leftAt < end.value && !w.fails
  }

  function EndSet(x: Setting, token: string, w: Writing): int
    requires Writes(x, token, w)
  {
    w.setAt + RevocationEnd(x.service, token, w.readAt).value - w.leftAt
  }

  lemma {:induction false} EntryEnds(x: Setting, store: Store, run: seq<Event>, token: string, end: int)
    requires x.digest(token) in store && store[x.digest(token)] == end
    ensures var store' := After(x, store, run);
      x.digest(token) in store' && store'[x.digest(token)] == EntryEnd(x, run, token, end)
    decreases |run|
  {
    if run != [] {
      match run[0]
      case Request(_, _) => EntryEnds(x, store, run[1..], token, end);
      case Revocation(t, w) =>
        var next := if Writes(x, t, w) && x.digest(t) == x.digest(token) then EndSet(x, t, w) else end;
        EntryEnds(x, Revoke(x, store, t, w).1, run[1..], token, next);
    }
  }

  /** The acceptance of a revoked token is known exactly, in every run, also one that revokes it again:
      it has to parse inside its window, the store has to answer, and to be asked after the entry
      that the last revocation set has ended. */
  lemma {:induction false} AcceptedExactly(x: Setting, store: Store, token: string, w: Writing, run: seq<Event>,
                                           a: Asking)
    requires Writes(x, token, w)
    ensures Accept(x, After(x, Revoke(x, store, token, w).1, run), token, a).Some? <==>
      (&& ParseToken(x.service, token, a.parsedAt).Some? && !a.fails
       && EntryEnd(x, run, token, EndSet(x, token, w)) <= a.askedAt)
  {
    EntryEnds(x, Revoke(x, store, token, w).1, run, token, EndSet(x, token, w));
  }

  /** Revoking tokens leaves the entries of tokens with other digests alone. */
  lemma {:induction false} OthersKeepEntry(x: Setting, store: Store, token: string, run: seq<Event>)
    requires forall k :: 0 <= k < |run| && run[k].Revocation? ==> x.digest(run[k].token) != x.digest(token)
    ensures var d := x.digest(token); var store' := After(x, store, run);
      (d in store' <==> d in store) && (d in store ==> store'[d] == store[d])
    decreases |run|
  {
    if run != [] {
      assert forall k :: 0 <= k < |run[1..]| ==> run[1..][k] == run[k + 1];
      var next := if run[0].Request? then store else Revoke(x, store, run[0].token, run[0].writing).1;
      OthersKeepEntry(x, next, token, run[1..]);
    }
  }

  /** Nobody is logged out by other people's tokens. */
  lemma {:induction false} OthersUnaffected(x: Setting, store: Store, token: string, run: seq<Event>, a: Asking)
    requires forall k :: 0 <= k < |run| && run[k].Revocation? ==> x.digest(run[k].token) != x.digest(token)
    ensures Accept(x, After(x, store, run), token, a) == Accept(x, store, token, a)
  {
    OthersKeepEntry(x, store, token, run);
  }

  /** A token that nobody revoked is accepted for as long as it parses, whatever else was revoked; only a
      store that is asked and does not answer refuses it. */
  lemma {:induction false} UnrevokedStaysIn(x: Setting, token: string, run: seq<Event>, a: Asking)
    requires forall k :: 0 <= k < |run| && run[k].Revocation? ==> x.digest(run[k].token) != x.digest(token)
    ensures Accept(x, After(x, map[], run), token, a)
         == if x.present && x.enabled && a.fails then None else ParseToken(x.service, token, a.parsedAt)
  {
    OthersKeepEntry(x, map[], token, run);
  }

  /** Without a revoker or a store a logout changes nothing. */
  lemma {:induction false} DisabledPromisesNothing(x: Setting, store: Store, token: string, run: seq<Event>, a: Asking)
    requires !Active(x)
    ensures After(x, store, run) == store
    ensures Accept(x, store, token, a) == ParseToken(x.service, token, a.parsedAt)
    decreases |run|
  {
    if run != [] {
      DisabledPromisesNothing(x, store, token, run[1..], a);
    }
  }

  /** The gap between reading the clock and asking the store is real: a token made at 0 for 100 seconds
      is revoked at 50 seconds, the write reaching the store a nanosecond late. A request that parsed it
      in the last nanosecond of its window and asked two nanoseconds later is accepted. */
  lemma {:induction false} StraddlingRequest(token: string)
    ensures var x := Setting(Service(30 * NANOS_PER_SECOND, 10, _ => Some(NewClaims(7, 0, 100 * NANOS_PER_SECOND))),
                             t => t, true, true);
      var revoked, end := 50 * NANOS_PER_SECOND, 130 * NANOS_PER_SECOND;
      var w, a := Writing(revoked, revoked, revoked + 1, false), Asking(end - 1, end + 1, false);
      && Revoke(x, map[], token, w).0 == Done
      && Accept(x, Revoke(x, map[], token, w).1, token, a) == Some(7)
  {
    DigitsRead(7);
    assert Digits(7) == "7";
    TrimTrims("7");
    assert Number("7") == 7;
  }

  // ---- the handlers ----

  datatype Response =
    | Proceed(user: nat)
    | BadFormat | Rejected | Unverified | NotFound | Internal | LoggedOut | NewToken(user: nat)

  class Gate {
    const setting: Setting
    var store: Store

    constructor (setting: Setting)
      ensures this.setting == setting && store == map[]
    {
      this.setting := setting;
      store := map[];
    }

    /** The middleware: goes on exactly for a well-formed, current token without an entry that lasts;
        when the store does not answer it refuses. */
    method RequireAuth(headers: seq<string>, bearer: string -> Option<string>, a: Asking) returns (r: Response)
      ensures r.Proceed? <==> (|headers| == 1 && bearer(headers[0]).Some?
        && Accept(setting, store, bearer(headers[0]).value, a).Some?)
      ensures r == BadFormat <==> |headers| != 1 || bearer(headers[0]).None?
      ensures r != BadFormat ==>
        var token, user := bearer(headers[0]).value, ParseToken(setting.service, bearer(headers[0]).value, a.parsedAt);
        var asks := setting.present && setting.enabled;
        var key := setting.digest(token);
        && (forall id: nat :: r == Proceed(id) <==>
              user == Some(id) && (asks ==> !a.fails && (key in store ==> store[key] <= a.askedAt)))
        && (r == Unverified <==> user.Some? && asks && a.fails)
        && (r.Proceed? || r == Unverified || r == Rejected)
      ensures r.Proceed? ==> Accept(setting, store, bearer(headers[0]).value, a) == Some(r.user)
      ensures r.Unverified? ==> Active(setting) && a.fails
    {
      if |headers| != 1 || bearer(headers[0]).None? {
        return BadFormat;
      }
      var token := bearer(headers[0]).value;
      var user := ParseToken(setting.service, token, a.parsedAt);
      if user.None? {
        return Rejected;
      }
      if Active(setting) {
        if a.fails {
          return Unverified;
        }
        if setting.digest(token) in store && a.askedAt < store[setting.digest(token)] {
          return Rejected;
        }
      }
      return Proceed(user.value);
    }

    /** Writes the entry of a token that still parses, to last for what is left of its window; without
        a revoker it succeeds at once. */
    method RevokeToken(token: string, w: Writing) returns (answer: Answer)
      modifies this
      ensures (answer, store) == Revoke(setting, old(store), token, w)
    {
      if !setting.present {
        return Done;
      }
      var c := ParseClaims(setting.service, token, w.readAt);
      if c.None? {
        return InvalidToken;
      }
      var ttl := c.value.expiresAt.value + setting.service.leeway - w.leftAt;
      if !setting.enabled || ttl <= 0 {
        return Done;
      }
      if w.fails {
        return StoreError;
      }
      store := store[setting.digest(token) := w.setAt + ttl];
      return Done;
    }

    /** A logout reports success only when the revocation is done. */
    method Logout(token: Option<string>, w: Writing) returns (r: Response)
      modifies this
      ensures token.None? ==> r == BadFormat && store == old(store)
      ensures token.Some? ==> store == Revoke(setting, old(store), token.value, w).1
      ensures r.LoggedOut? <==> token.Some? && Revoke(setting, old(store), token.value, w).0.Done?
      ensures r.Rejected? <==> token.Some? && Revoke(setting, old(store), token.value, w).0.InvalidToken?
    {
      if token.None? {
        return BadFormat;
      }
      var answer := RevokeToken(token.value, w);
      match answer {
        case InvalidToken => return Rejected;
        case StoreError => return Internal;
        case Done => return LoggedOut;
      }
    }

    /** A refresh hands out a new token only after the old one is revoked; `built` says whether making
        the new one succeeds. */
    method Refresh(user: nat, known: bool, token: Option<string>, w: Writing, built: bool) returns (r: Response)
      modifies this
      ensures !known ==> r == NotFound && store == old(store)
      ensures r.NewToken? <==> known && (token.Some? ==> Revoke(setting, old(store), token.value, w).0.Done?) && built
      ensures r.NewToken? ==> r.user == user
      ensures known && token.Some? ==> store == Revoke(setting, old(store), token.value, w).1
      ensures known && token.None? ==> store == old(store)
    {
      if !known {
        return NotFound;
      }
      if token.Some? {
        var answer := RevokeToken(token.value, w);
        match answer {
          case InvalidToken => return Rejected;
          case StoreError => return Internal;
          case Done =>
        }
      }
      return if built then NewToken(user) else Internal;
    }
  }
}
