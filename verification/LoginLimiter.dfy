/** The in-memory login limiter: a map of failure counts that every operation prunes, compared
    with a reference reading of the whole history of failures and successes. Times and durations
    are integers in any fixed unit; each call receives the time its clock showed, and that clock
    never goes back. */
module LoginLimiter {
  import opened Common
  import opened Text

  datatype Attempt = Attempt(failures: nat, first: int)

  datatype Event = Failure(key: string, at: int) | Success(key: string)

  // ---- the reference: a fold over the full history ----

  /** The failures of `key` in the window that its latest failure belongs to: a window opens at
      the first failure after a success or after an earlier window has ended. */
  function Counted(h: seq<Event>, key: string, window: int): Option<Attempt> {
    if h == [] then None
    else
      var before := Counted(h[..|h| - 1], key, window);
      match h[|h| - 1]
      case Success(k) => if k == key then None else before
      case Failure(k, t) =>
        if k != key then before
        else if before.Some? && t - before.value.first < window then
          Some(Attempt(before.value.failures + 1, before.value.first))
        else Some(Attempt(1, t))
  }

  predicate Live(c: Option<Attempt>, window: int, now: int) {
    c.Some? && now - c.value.first < window
  }

  /** Whether the history lets `key` try at time `now`. */
  predicate Allowed(h: seq<Event>, key: string, max: int, window: int, now: int) {
    var c := Counted(h, key, window);
    Live(c, window, now) ==> c.value.failures < max
  }

  /** How long `key` has to wait at time `now`. */
  function Wait(h: seq<Event>, key: string, max: int, window: int, now: int): int {
    if Allowed(h, key, max, window, now) then 0
    else Counted(h, key, window).value.first + window - now
  }

  // ---- what the reference means ----

  predicate IsFailure(e: Event, key: string) {
    e.Failure? && e.key == key
  }

  function CountFailures(h: seq<Event>, key: string): nat {
    if h == [] then 0
    else CountFailures(h[..|h| - 1], key) + (if IsFailure(h[|h| - 1], key) then 1 else 0)
  }

  /** Positions from `i` on hold no success of `key`, and only failures of it inside the window
      that opens at time `first`. */
  predicate Window(h: seq<Event>, i: nat, key: string, first: int, window: int) {
    && i < |h| && h[i] == Failure(key, first)
    && (forall j :: i <= j < |h| && h[j].key == key ==> h[j].Failure? && h[j].at - first < window)
  }

  /** A counted window is a real one: it opened with a failure of the key, and the count is the
      number of that key's failures since, all inside the window and with no success between. */
  lemma {:induction false} CountedMeaning(h: seq<Event>, key: string, window: int) returns (i: nat)
    requires window > 0 && Counted(h, key, window).Some?
    ensures var c := Counted(h, key, window).value;
      Window(h, i, key, c.first, window) && c.failures == CountFailures(h[i..], key) >= 1
  {
    var init, last := h[..|h| - 1], h[|h| - 1];
    var before := Counted(init, key, window);
    if last.key == key && !(before.Some? && last.at - before.value.first < window) {
      i := |h| - 1;
      assert h[i..] == [last];
      assert h[i..][..0] == [];
    } else {
      i := CountedMeaning(init, key, window);
      WindowNext(init, last, i, key, before.value.first, window);
      assert h == init + [last];
    }
  }

  /** A window goes on over an event of another key, and counts a failure of its own key in time. */
  lemma {:induction false} WindowNext(h: seq<Event>, e: Event, i: nat, key: string, first: int, window: int)
    requires Window(h, i, key, first, window) && (e.key == key ==> e.Failure? && e.at - first < window)
    ensures Window(h + [e], i, key, first, window)
    ensures CountFailures((h + [e])[i..], key) == CountFailures(h[i..], key) + (if e.key == key then 1 else 0)
  {
    assert (h + [e])[i..][..|h| - i] == h[i..];
    assert (h + [e])[i..][|h| - i] == e;
  }

  /** Nothing is counted exactly when the key has no failure since its last success. */
  lemma {:induction false} NothingCounted(h: seq<Event>, key: string, window: int)
    ensures Counted(h, key, window).None?
       <==> (forall i :: 0 <= i < |h| && IsFailure(h[i], key) ==>
               exists j :: i < j < |h| && h[j] == Success(key))
  {
    if h != [] {
      var init, last := h[..|h| - 1], h[|h| - 1];
      NothingCounted(init, key, window);
      assert forall i :: 0 <= i < |init| ==> h[i] == init[i];
      if last == Success(key) {
        assert forall i :: 0 <= i < |h| && h[i].Failure? ==> i < |h| - 1;
      } else if last.key == key {
        assert IsFailure(h[|h| - 1], key);
      } else if Counted(h, key, window).None? {
        forall i | 0 <= i < |h| && IsFailure(h[i], key)
          ensures exists j :: i < j < |h| && h[j] == Success(key)
        {
          var j :| i < j < |init| && init[j] == Success(key);
          assert h[j] == Success(key);
        }
      } else {
        var i :| 0 <= i < |init| && IsFailure(init[i], key)
          && !(exists j :: i < j < |init| && init[j] == Success(key));
        assert IsFailure(h[i], key);
      }
    }
  }

  /** Events without a success of `key`, whose failures of `key` come before `to`. */
  predicate Quiet(more: seq<Event>, key: string, to: int) {
    forall j :: 0 <= j < |more| && more[j].key == key ==> more[j].Failure? && more[j].at < to
  }

  lemma {:induction false} QuietKeepsWindow(h: seq<Event>, more: seq<Event>, key: string, window: int)
    requires Counted(h, key, window).Some?
    requires Quiet(more, key, Counted(h, key, window).value.first + window)
    ensures var c, d := Counted(h, key, window).value, Counted(h + more, key, window);
      d.Some? && d.value.first == c.first && d.value.failures == c.failures + CountFailures(more, key)
  {
    if more == [] {
      assert h + more == h;
    } else {
      var init := more[..|more| - 1];
      QuietKeepsWindow(h, init, key, window);
      assert (h + more)[..|h + more| - 1] == h + init;
    }
  }

  /** A key told to wait `r` stays blocked until exactly now + r, whatever other keys do and
      however many of its own attempts still in flight fail meanwhile; only a success ends the
      block earlier, and late failures do not prolong it. */
  lemma {:induction false} BlockEndsOnTime(h: seq<Event>, more: seq<Event>, key: string, max: int, window: int,
                                           now: int, t: int)
    requires !Allowed(h, key, max, window, now) && now <= t
    requires Quiet(more, key, now + Wait(h, key, max, window, now))
    ensures var r := Wait(h, key, max, window, now);
      && 0 < r
      && (Allowed(h + more, key, max, window, t) <==> now + r <= t)
      && Wait(h + more, key, max, window, t) == (if t < now + r then now + r - t else 0)
  {
    QuietKeepsWindow(h, more, key, window);
  }

  /** A success clears the key and no other. */
  lemma {:induction false} SuccessClears(h: seq<Event>, key: string, other: string, max: int, window: int, now: int)
    requires max > 0
    ensures Allowed(h + [Success(key)], key, max, window, now)
    ensures other != key ==>
      Allowed(h + [Success(key)], other, max, window, now) == Allowed(h, other, max, window, now)
  {
    assert (h + [Success(key)])[..|h|] == h;
  }

  // ---- the limiter ----

  class Limiter {
    const max: int
    const window: int
    var attempts: map<string, Attempt>
    ghost var history: seq<Event>
    ghost var clock: int

    /** The pruned map against the full history: an entry is what the reference counts, and a
        missing one is a window that is over or never opened. */
    ghost predicate Valid() reads this {
      && max > 0 && window > 0
      && (forall k :: k in attempts ==>
            Counted(history, k, window) == Some(attempts[k]) && attempts[k].first <= clock)
      && (forall k :: k !in attempts ==> !Live(Counted(history, k, window), window, clock))
    }

    constructor (max: int, window: int)
      requires max > 0 && window > 0
      ensures Valid() && history == [] && this.max == max && this.window == window
    {
      this.max, this.window := max, window;
      attempts, history, clock := map[], [], 0;
    }

    /** Drops the entries whose window is over. */
    method PruneExpired(now: int)
      requires Valid() && clock <= now
      modifies this
      ensures Valid() && clock == now && history == old(history)
      ensures attempts == map k | k in old(attempts) && now - old(attempts)[k].first < window :: old(attempts)[k]
    {
      var todo := attempts.Keys;
      while todo != {}
        invariant todo <= attempts.Keys && attempts.Keys <= old(attempts).Keys
        invariant forall k :: k in attempts ==> attempts[k] == old(attempts)[k]
        invariant forall k :: k in old(attempts) && k !in todo ==>
          (k in attempts <==> now - old(attempts)[k].first < window)
        invariant history == old(history) && clock == old(clock)
        decreases |todo|
      {
        var key :| key in todo;
        if now - attempts[key].first >= window {
          attempts := attempts - {key};
        }
        todo := todo - {key};
      }
      clock := now;
    }

    /** Lets an attempt through exactly when the full history does. */
    method Allow(key: string, now: int) returns (ok: bool)
      requires Valid() && clock <= now
      modifies this
      ensures Valid() && clock == now && history == old(history)
      ensures ok == Allowed(history, key, max, window, now)
    {
      PruneExpired(now);
      if key !in attempts {
        return true;
      }
      return attempts[key].failures < max;
    }

    /** Answers the reference's waiting time, which is positive exactly for a blocked key. */
    method RetryAfter(key: string, now: int) returns (wait: int)
      requires Valid() && clock <= now
      modifies this
      ensures Valid() && clock == now && history == old(history)
      ensures wait == Wait(history, key, max, window, now)
      ensures wait > 0 <==> !Allowed(history, key, max, window, now)
    {
      PruneExpired(now);
      if key !in attempts || attempts[key].failures < max {
        return 0;
      }
      var remaining := window - (now - attempts[key].first);
      if remaining <= 0 {
        assert false; // pruning has already removed such an entry
      }
      return remaining;
    }

    method RecordFailure(key: string, now: int)
      requires Valid() && clock <= now
      modifies this
      ensures Valid() && clock == now && history == old(history) + [Failure(key, now)]
    {
      PruneExpired(now);
      history := history + [Failure(key, now)];
      assert history[..|history| - 1] == old(history);
      if key !in attempts || now - attempts[key].first >= window {
        attempts := attempts[key := Attempt(1, now)];
        return;
      }
      attempts := attempts[key := attempts[key].(failures := attempts[key].failures + 1)];
    }

    method RecordSuccess(key: string)
      requires Valid()
      modifies this
      ensures Valid() && clock == old(clock) && history == old(history) + [Success(key)]
    {
      history := history + [Success(key)];
      assert history[..|history| - 1] == old(history);
      attempts := attempts - {key};
    }
  }

  /** No limiter is made when either setting is not positive. */
  method NewFromConfig(max: int, window: int) returns (l: Limiter?)
    ensures l == null <==> max <= 0 || window <= 0
    ensures l != null ==> fresh(l) && l.Valid() && l.history == [] && l.max == max && l.window == window
  {
    if max <= 0 || window <= 0 {
      return null;
    }
    l := new Limiter(max, window);
  }

  // ---- keys ----

  function LimiterKey(ip: string, username: string, lower: string -> string): string {
    lower(Trim(ip)) + "|" + lower(Trim(username))
  }

  /** Addresses hold no bar, so two attempts share a counter exactly when address and name agree
      up to surrounding space and letter case. */
  lemma {:induction false} KeySeparates(ip: string, username: string, ip': string, username': string,
                                        lower: string -> string)
    requires '|' !in lower(Trim(ip)) && '|' !in lower(Trim(ip'))
    ensures LimiterKey(ip, username, lower) == LimiterKey(ip', username', lower)
       <==> lower(Trim(ip)) == lower(Trim(ip')) && lower(Trim(username)) == lower(Trim(username'))
  {
    var a, b, a', b' := lower(Trim(ip)), lower(Trim(username)), lower(Trim(ip')), lower(Trim(username'));
    var s, s' := a + "|" + b, a' + "|" + b';
    if s == s' {
      assert s[|a|] == '|' && s'[|a'|] == '|';
      assert forall k :: 0 <= k < |a| ==> s[k] == a[k] && a[k] != '|';
      assert forall k :: 0 <= k < |a'| ==> s'[k] == a'[k] && a'[k] != '|';
      assert |a| == |a'|;
      assert a == s[..|a|] && a' == s'[..|a'|];
      assert b == s[|a| + 1..] && b' == s'[|a'| + 1..];
    }
  }
}
