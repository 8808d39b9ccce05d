/** The read-through report cache: reports are computed section by section while other requests
    write, stored for two minutes, and deleted by the writers that know of the cache. */
module ReportCache {
  import opened Clock
  import opened Common
  import opened ReportKeys
  import Ledger
  import Budgets

  const TTL := 120 * NANOS_PER_SECOND

  /** The rows that one user's reports read. */
  datatype Rows = Rows(ledger: Ledger.DB, budgets: seq<Budgets.Budget>)

  /** A committed write of one user; it leaves that user with these rows. */
  datatype Write = Write(user: nat, rows: Rows, at: int)

  /** A report consists of sections, each computed by a query of its own. */
  datatype Setting = Setting(sections: nat, section: (nat, Rows, Request) -> string,
                             initial: nat -> Rows, stamp: Instant -> string)

  function RowsOf(x: Setting, log: seq<Write>, user: nat): Rows {
    if log == [] then x.initial(user)
    else if log[|log| - 1].user == user then log[|log| - 1].rows
    else RowsOf(x, log[..|log| - 1], user)
  }

  /** One section as computed: `version` writes had been committed when it was read. */
  datatype Part = Part(text: string, version: nat, readAt: int)

  datatype Fill = Fill(request: Request, startedAt: int, parts: seq<Part>)

  datatype Entry = Entry(fill: Fill, storedAt: int)

  /** `dirty` holds the users with a write that no successful invalidation has followed. */
  datatype State = State(log: seq<Write>, fills: map<nat, Fill>, cache: map<string, Entry>, dirty: set<nat>, clock: int)

  /** What a computation of one section would give now. */
  function Fresh(x: Setting, log: seq<Write>, r: Request, k: nat): string {
    x.section(k, RowsOf(x, log, r.user), r)
  }

  /** The report that a store holds for a request at a time. */
  function Lookup(x: Setting, cache: map<string, Entry>, r: Request, at: int): Option<Fill> {
    var key := KeyOf(r, x.stamp);
    if key in cache && at < cache[key].storedAt + TTL then Some(cache[key].fill) else None
  }

  /** The report a request would be served from the cache. */
  function Served(x: Setting, s: State, r: Request, at: int): Option<Fill> {
    Lookup(x, s.cache, r, at)
  }

  // ---- steps ----

  datatype Step =
    | Begin(id: nat, request: Request, at: int)
    | Read(id: nat, at: int)
    | Finish(id: nat, at: int, stored: bool)
    | Abandon(id: nat)
    | Commit(write: Write)
    | Invalidate(user: nat, gone: set<string>, complete: bool, at: int)

  predicate Enabled(x: Setting, s: State, e: Step) {
    match e
    case Begin(id, r, at) => s.clock <= at && id !in s.fills
    case Read(id, at) => s.clock <= at && id in s.fills && |s.fills[id].parts| < x.sections
    case Finish(id, at, _) => s.clock <= at && id in s.fills && |s.fills[id].parts| == x.sections
    case Abandon(id) => true
    case Commit(w) => s.clock <= w.at
    case Invalidate(user, gone, complete, at) =>
      && s.clock <= at
      && (forall k :: k in gone ==> k in s.cache && StartsWith(k, Prefix(user)))
      && (complete ==> forall k :: k in s.cache && StartsWith(k, Prefix(user)) ==> k in gone)
  }

  function Apply(x: Setting, s: State, e: Step): State
    requires Enabled(x, s, e)
  {
    match e
    case Begin(id, r, at) => s.(fills := s.fills[id := Fill(r, at, [])], clock := at)
    case Read(id, at) =>
      var f := s.fills[id];
      var part := Part(Fresh(x, s.log, f.request, |f.parts|), |s.log|, at);
      s.(fills := s.fills[id := f.(parts := f.parts + [part])], clock := at)
    case Finish(id, at, stored) =>
      var f := s.fills[id];
      s.(fills := s.fills - {id}, clock := at,
         cache := if stored then s.cache[KeyOf(f.request, x.stamp) := Entry(f, at)] else s.cache)
    case Abandon(id) => s.(fills := s.fills - {id})
    case Commit(w) => s.(log := s.log + [w], dirty := s.dirty + {w.user}, clock := w.at)
    case Invalidate(user, gone, complete, at) =>
      s.(cache := s.cache - gone, clock := at, dirty := if complete then s.dirty - {user} else s.dirty)
  }

  /** A run whose every step is possible where it happens. */
  predicate Possible(x: Setting, s: State, run: seq<Step>)
    decreases |run|
  {
    run == [] || (Enabled(x, s, run[0]) && Possible(x, Apply(x, s, run[0]), run[1..]))
  }

  function After(x: Setting, s: State, run: seq<Step>): State
    requires Possible(x, s, run)
    decreases |run|
  {
    if run == [] then s else After(x, Apply(x, s, run[0]), run[1..])
  }

  // ---- age ----

  /** `version` writes were committed at time t. */
  predicate Current(log: seq<Write>, version: nat, t: int) {
    && version <= |log|
    && (version > 0 ==> log[version - 1].at <= t)
    && (version < |log| ==> t <= log[version].at)
  }

  /** Section k of a fill is what the rows of its version gave, at a time between start and `until`. */
  ghost predicate PartSound(x: Setting, log: seq<Write>, f: Fill, k: nat, until: int)
    requires k < |f.parts|
  {
    var p := f.parts[k];
    && Current(log, p.version, p.readAt) && f.startedAt <= p.readAt <= until
    && p.text == Fresh(x, log[..p.version], f.request, k)
  }

  ghost predicate FillSound(x: Setting, log: seq<Write>, f: Fill, until: int) {
    forall k :: 0 <= k < |f.parts| ==> PartSound(x, log, f, k, until)
  }

  ghost predicate EntrySound(x: Setting, s: State, key: string)
    requires key in s.cache
  {
    var e := s.cache[key];
    && key == KeyOf(e.fill.request, x.stamp) && |e.fill.parts| == x.sections && e.storedAt <= s.clock
    && FillSound(x, s.log, e.fill, e.storedAt)
  }

  ghost predicate Sound(x: Setting, s: State) {
    && (forall i :: 0 <= i < |s.log| ==> s.log[i].at <= s.clock)
    && (forall id :: id in s.fills ==> FillSound(x, s.log, s.fills[id], s.clock))
    && (forall key :: key in s.cache ==> EntrySound(x, s, key))
  }

  lemma {:induction false} CommitKeepsFill(x: Setting, log: seq<Write>, w: Write, f: Fill, until: int)
    requires FillSound(x, log, f, until) && until <= w.at
    ensures FillSound(x, log + [w], f, until)
  {
    forall k | 0 <= k < |f.parts| ensures PartSound(x, log + [w], f, k, until) {
      assert PartSound(x, log, f, k, until);
      assert (log + [w])[..f.parts[k].version] == log[..f.parts[k].version];
    }
  }

  lemma {:induction false} LaterFill(x: Setting, log: seq<Write>, f: Fill, until: int, later: int)
    requires FillSound(x, log, f, until) && until <= later
    ensures FillSound(x, log, f, later)
  {
    forall k | 0 <= k < |f.parts| ensures PartSound(x, log, f, k, later) {
      assert PartSound(x, log, f, k, until);
    }
  }

  lemma {:induction false} ReadKeepsFill(x: Setting, log: seq<Write>, f: Fill, at: int, until: int)
    requires FillSound(x, log, f, until) && until <= at && f.startedAt <= at
    requires forall i :: 0 <= i < |log| ==> log[i].at <= at
    ensures FillSound(x, log, f.(parts := f.parts + [Part(Fresh(x, log, f.request, |f.parts|), |log|, at)]), at)
  {
    var g := f.(parts := f.parts + [Part(Fresh(x, log, f.request, |f.parts|), |log|, at)]);
    forall k | 0 <= k < |g.parts| ensures PartSound(x, log, g, k, at) {
      if k < |f.parts| {
        assert PartSound(x, log, f, k, until);
      } else {
        assert log[..|log|] == log;
      }
    }
  }

  ghost predicate Begun(s: State) {
    forall id :: id in s.fills ==> s.fills[id].startedAt <= s.clock
  }

  lemma {:induction false} StepKeepsFills(x: Setting, s: State, e: Step, id: nat)
    requires Sound(x, s) && Begun(s) && Enabled(x, s, e) && id in Apply(x, s, e).fills
    ensures var s' := Apply(x, s, e); FillSound(x, s'.log, s'.fills[id], s'.clock) && s'.fills[id].startedAt <= s'.clock
  {
    var s' := Apply(x, s, e);
    if id in s.fills {
      assert FillSound(x, s.log, s.fills[id], s.clock);
      match e
      case Commit(w) =>
        CommitKeepsFill(x, s.log, w, s.fills[id], s.clock);
        LaterFill(x, s'.log, s'.fills[id], s.clock, s'.clock);
      case Read(i, at) =>
        if i == id { ReadKeepsFill(x, s.log, s.fills[id], at, s.clock); }
        else { LaterFill(x, s.log, s.fills[id], s.clock, s'.clock); }
      case _ => LaterFill(x, s.log, s.fills[id], s.clock, s'.clock);
    }
  }

  lemma {:induction false} StepKeepsEntries(x: Setting, s: State, e: Step, key: string)
    requires Sound(x, s) && Begun(s) && Enabled(x, s, e) && key in Apply(x, s, e).cache
    ensures EntrySound(x, Apply(x, s, e), key)
  {
    var s' := Apply(x, s, e);
    if e.Finish? && e.stored && key == KeyOf(s.fills[e.id].request, x.stamp) {
      LaterFill(x, s.log, s.fills[e.id], s.clock, e.at);
    } else {
      assert EntrySound(x, s, key);
      if e.Commit? { CommitKeepsFill(x, s.log, e.write, s.cache[key].fill, s.cache[key].storedAt); }
    }
  }

  lemma {:induction false} StepKeepsSound(x: Setting, s: State, e: Step)
    requires Sound(x, s) && Begun(s) && Enabled(x, s, e)
    ensures Sound(x, Apply(x, s, e)) && Begun(Apply(x, s, e))
  {
    var s' := Apply(x, s, e);
    forall id | id in s'.fills
      ensures FillSound(x, s'.log, s'.fills[id], s'.clock) && s'.fills[id].startedAt <= s'.clock {
      StepKeepsFills(x, s, e, id);
    }
    forall key | key in s'.cache ensures EntrySound(x, s', key) {
      StepKeepsEntries(x, s, e, key);
    }
  }

  lemma {:induction false} RunKeepsSound(x: Setting, s: State, run: seq<Step>)
    requires Sound(x, s) && Begun(s) && Possible(x, s, run)
    ensures Sound(x, After(x, s, run)) && Begun(After(x, s, run))
    decreases |run|
  {
    if run != [] {
      StepKeepsSound(x, s, run[0]);
      RunKeepsSound(x, Apply(x, s, run[0]), run[1..]);
    }
  }

  const START := State([], map[], map[], {}, 0)

  /** However writes, fills and invalidations interleave, and whether or not deletions succeed, a
      served report has the asked key, and each section is what the rows committed at some moment
      gave, a moment less than two minutes plus the time its filling took before now. */
  lemma {:induction false} ServedIsRecent(x: Setting, run: seq<Step>, r: Request, at: int, k: nat)
    requires Possible(x, START, run)
    requires Served(x, After(x, START, run), r, at).Some? && k < x.sections
    ensures var s := After(x, START, run); var f := Served(x, s, r, at).value;
      && |f.parts| == x.sections && KeyOf(f.request, x.stamp) == KeyOf(r, x.stamp)
      && Current(s.log, f.parts[k].version, f.parts[k].readAt)
      && f.parts[k].text == Fresh(x, s.log[..f.parts[k].version], f.request, k)
      && at - f.parts[k].readAt < 120 * 1_000_000_000 + (s.cache[KeyOf(r, x.stamp)].storedAt - f.startedAt)
  {
    RunKeepsSound(x, START, run);
    var s := After(x, START, run);
    var f := Served(x, s, r, at).value;
    assert EntrySound(x, s, KeyOf(r, x.stamp));
    assert PartSound(x, s.log, f, k, s.cache[KeyOf(r, x.stamp)].storedAt);
  }

  // ---- coherence ----

  /** No write of the user came after the first `version` ones. */
  predicate Unwritten(log: seq<Write>, user: nat, version: nat) {
    version <= |log| && forall i :: version <= i < |log| ==> log[i].user != user
  }

  lemma {:induction false} UnwrittenRows(x: Setting, log: seq<Write>, user: nat, version: nat)
    requires Unwritten(log, user, version)
    ensures RowsOf(x, log[..version], user) == RowsOf(x, log, user)
  {
    if version == |log| {
      assert log[..version] == log;
    } else {
      var init := log[..|log| - 1];
      assert forall i :: 0 <= i < |init| ==> init[i] == log[i];
      UnwrittenRows(x, init, user, version);
      assert init[..version] == log[..version];
    }
  }

  // What is read and stored, and when, does not depend on what sections compute.

  predicate FillAlike(f: Fill, g: Fill) {
    && f.request == g.request && f.startedAt == g.startedAt && |f.parts| == |g.parts|
    && forall k :: 0 <= k < |f.parts| ==>
         f.parts[k].version == g.parts[k].version && f.parts[k].readAt == g.parts[k].readAt
  }

  predicate EntryAlike(d: Entry, e: Entry) { d.storedAt == e.storedAt && FillAlike(d.fill, e.fill) }

  ghost predicate Alike(s: State, t: State) {
    && s.log == t.log && s.dirty == t.dirty && s.clock == t.clock
    && s.fills.Keys == t.fills.Keys && (forall id :: id in s.fills ==> FillAlike(s.fills[id], t.fills[id]))
    && s.cache.Keys == t.cache.Keys && (forall key :: key in s.cache ==> EntryAlike(s.cache[key], t.cache[key]))
  }

  lemma {:induction false} FillsAlike(x: Setting, y: Setting, s: State, t: State, e: Step, id: nat)
    requires y == x.(section := y.section) && Alike(s, t) && Enabled(x, s, e) && Enabled(y, t, e)
    ensures id in Apply(x, s, e).fills <==> id in Apply(y, t, e).fills
    ensures id in Apply(x, s, e).fills ==> FillAlike(Apply(x, s, e).fills[id], Apply(y, t, e).fills[id])
  {
    if id in s.fills { assert FillAlike(s.fills[id], t.fills[id]); }
  }

  lemma {:induction false} EntriesAlike(x: Setting, y: Setting, s: State, t: State, e: Step, key: string)
    requires y == x.(section := y.section) && Alike(s, t) && Enabled(x, s, e) && Enabled(y, t, e)
    ensures key in Apply(x, s, e).cache <==> key in Apply(y, t, e).cache
    ensures key in Apply(x, s, e).cache ==> EntryAlike(Apply(x, s, e).cache[key], Apply(y, t, e).cache[key])
  {
    if e.Finish? { assert FillAlike(s.fills[e.id], t.fills[e.id]); }
    if key in s.cache { assert EntryAlike(s.cache[key], t.cache[key]); }
  }

  lemma {:induction false} EnabledAlike(x: Setting, y: Setting, s: State, t: State, e: Step)
    requires y == x.(section := y.section) && Alike(s, t) && Enabled(x, s, e)
    ensures Enabled(y, t, e)
  {
    if e.Read? || e.Finish? { assert FillAlike(s.fills[e.id], t.fills[e.id]); }
  }

  lemma {:induction false} StepAlike(x: Setting, y: Setting, s: State, t: State, e: Step)
    requires y == x.(section := y.section) && Alike(s, t) && Enabled(x, s, e)
    ensures Enabled(y, t, e) && Alike(Apply(x, s, e), Apply(y, t, e))
  {
    EnabledAlike(x, y, s, t, e);
    var s', t' := Apply(x, s, e), Apply(y, t, e);
    forall id: nat ensures id in s'.fills <==> id in t'.fills
      ensures id in s'.fills ==> FillAlike(s'.fills[id], t'.fills[id])
    {
      FillsAlike(x, y, s, t, e, id);
    }
    forall key: string ensures key in s'.cache <==> key in t'.cache
      ensures key in s'.cache ==> EntryAlike(s'.cache[key], t'.cache[key])
    {
      EntriesAlike(x, y, s, t, e, key);
    }
  }

  lemma {:induction false} RunAlike(x: Setting, y: Setting, s: State, t: State, run: seq<Step>)
    requires y == x.(section := y.section) && Alike(s, t) && Possible(x, s, run)
    ensures Possible(y, t, run) && Alike(After(x, s, run), After(y, t, run))
    decreases |run|
  {
    if run != [] {
      StepAlike(x, y, s, t, run[0]);
      RunAlike(x, y, Apply(x, s, run[0]), Apply(y, t, run[0]), run[1..]);
    }
  }

  /** After the run, with these sections, section k of the served report is what computing it now gives. */
  predicate FreshWith(x: Setting, section: (nat, Rows, Request) -> string, run: seq<Step>, r: Request, at: int,
                      k: nat) {
    var y := x.(section := section);
    && Possible(y, START, run)
    && var s := After(y, START, run);
      && Served(y, s, r, at).Some? && k < |Served(y, s, r, at).value.parts|
      && Served(y, s, r, at).value.parts[k].text == Fresh(y, s.log, r, k)
  }

  /** The entry was filled for this very request, and the user's rows are what they were when it was read. */
  predicate SameInput(x: Setting, s: State, f: Fill, r: Request, k: nat)
    requires k < |f.parts| && f.parts[k].version <= |s.log|
  {
    f.request == r && RowsOf(x, s.log[..f.parts[k].version], r.user) == RowsOf(x, s.log, r.user)
  }

  lemma {:induction false} FreshWithSections(x: Setting, section: (nat, Rows, Request) -> string, run: seq<Step>,
                                             r: Request, at: int, k: nat)
    requires Possible(x, START, run) && Served(x, After(x, START, run), r, at).Some? && k < x.sections
    ensures var s := After(x, START, run); var f := Served(x, s, r, at).value;
      && k < |f.parts| && f.parts[k].version <= |s.log|
      && (FreshWith(x, section, run, r, at, k) <==>
            section(k, RowsOf(x, s.log[..f.parts[k].version], f.request.user), f.request)
              == section(k, RowsOf(x, s.log, r.user), r))
  {
    var y := x.(section := section);
    RunAlike(x, y, START, START, run);
    var s, t := After(x, START, run), After(y, START, run);
    assert EntryAlike(s.cache[KeyOf(r, x.stamp)], t.cache[KeyOf(r, x.stamp)]);
    ServedIsRecent(x, run, r, at, k);
    ServedIsRecent(y, run, r, at, k);
    SameRows(x, y, s.log, r.user);
    SameRows(x, y, s.log[..Served(x, s, r, at).value.parts[k].version], Served(x, s, r, at).value.request.user);
  }

  lemma {:induction false} SameRows(x: Setting, y: Setting, log: seq<Write>, user: nat)
    requires y.initial == x.initial
    ensures RowsOf(y, log, user) == RowsOf(x, log, user)
  {
    if log != [] { SameRows(x, y, log[..|log| - 1], user); }
  }

  /** In every possible run: whatever its sections compute, the served report is fresh, exactly when its
      entry was filled for this very request and the user's rows are what they were when it was read. */
  lemma {:induction false} FreshExactly(x: Setting, run: seq<Step>, r: Request, at: int, k: nat)
    requires Possible(x, START, run) && Served(x, After(x, START, run), r, at).Some? && k < x.sections
    ensures var s := After(x, START, run); var f := Served(x, s, r, at).value;
      && k < |f.parts| && f.parts[k].version <= |s.log|
      && ((forall section :: FreshWith(x, section, run, r, at, k)) <==> SameInput(x, s, f, r, k))
  {
    ServedIsRecent(x, run, r, at, k);
    var s := After(x, START, run);
    var f := Served(x, s, r, at).value;
    var earlier := RowsOf(x, s.log[..f.parts[k].version], f.request.user);
    forall section | SameInput(x, s, f, r, k) ensures FreshWith(x, section, run, r, at, k) {
      FreshWithSections(x, section, run, r, at, k);
    }
    if !SameInput(x, s, f, r, k) {
      ghost var telling := (n: nat, rows: Rows, q: Request) => if rows == earlier
        && q == f.request then "then" else "now";
      FreshWithSections(x, telling, run, r, at, k);
      assert !FreshWith(x, telling, run, r, at, k);
    }
  }

  /** A section's text tells the rows and the request it was computed from. */
  ghost predicate Telling(x: Setting, k: nat) {
    forall rows, others, r, q :: x.section(k, rows, r) == x.section(k, others, q) ==> rows == others && r == q
  }

  /** A section that tells its input is fresh exactly then. */
  lemma {:induction false} TellingIsFresh(x: Setting, run: seq<Step>, r: Request, at: int, k: nat)
    requires Possible(x, START, run) && Served(x, After(x, START, run), r, at).Some?
    requires k < x.sections && Telling(x, k)
    ensures var s := After(x, START, run); var f := Served(x, s, r, at).value;
      && k < |f.parts| && f.parts[k].version <= |s.log|
      && (f.parts[k].text == Fresh(x, s.log, r, k) <==> SameInput(x, s, f, r, k))
  {
    ServedIsRecent(x, run, r, at, k);
  }

  /** It is fresh, whatever sections tell, if the request is the entry's own and the user has not
      written since it was read. */
  lemma {:induction false} UnwrittenIsFresh(x: Setting, run: seq<Step>, r: Request, at: int, k: nat)
    requires Possible(x, START, run) && Served(x, After(x, START, run), r, at).Some? && k < x.sections
    ensures var s := After(x, START, run); var f := Served(x, s, r, at).value;
      && k < |f.parts|
      && (f.request == r && Unwritten(s.log, r.user, f.parts[k].version) ==> f.parts[k].text == Fresh(x, s.log, r, k))
  {
    ServedIsRecent(x, run, r, at, k);
    var s := After(x, START, run);
    var version := Served(x, s, r, at).value.parts[k].version;
    if Unwritten(s.log, r.user, version) { UnwrittenRows(x, s.log, r.user, version); }
  }

  predicate Whole(r: Request) { Ranged(r) && WholeSecond(r.start) && WholeSecond(r.end) }

  /** What coherence needs of one user's steps: whole seconds, and no write that commits while a fill
      of the user is under way. */
  predicate CalmStep(s: State, e: Step, user: nat) {
    match e
    case Begin(_, r, _) => r.user == user ==> Whole(r)
    case Commit(w) => w.user == user ==> forall id :: id in s.fills ==> s.fills[id].request.user != user
    case _ => true
  }

  predicate Calm(x: Setting, s: State, run: seq<Step>, user: nat)
    requires Possible(x, s, run)
    decreases |run|
  {
    run == [] || (CalmStep(s, run[0], user) && Calm(x, Apply(x, s, run[0]), run[1..], user))
  }

  /** The fill's sections were all read after the user's last write. */
  ghost predicate UpToDate(log: seq<Write>, f: Fill) {
    forall k :: 0 <= k < |f.parts| ==> Unwritten(log, f.request.user, f.parts[k].version)
  }

  ghost predicate FillCoherent(s: State, id: nat, user: nat)
    requires id in s.fills
  {
    s.fills[id].request.user == user ==> Whole(s.fills[id].request) && UpToDate(s.log, s.fills[id])
  }

  ghost predicate EntryCoherent(x: Setting, s: State, key: string, user: nat)
    requires key in s.cache
  {
    var f := s.cache[key].fill;
    && key == KeyOf(f.request, x.stamp)
    && (f.request.user == user ==> Whole(f.request) && (user !in s.dirty ==> UpToDate(s.log, f)))
  }

  ghost predicate Coherent(x: Setting, s: State, user: nat) {
    && (forall id :: id in s.fills ==> FillCoherent(s, id, user))
    && (forall key :: key in s.cache ==> EntryCoherent(x, s, key, user))
  }

  lemma {:induction false} CoherentFill(x: Setting, s: State, e: Step, id: nat, user: nat)
    requires Coherent(x, s, user) && Enabled(x, s, e) && CalmStep(s, e, user) && id in Apply(x, s, e).fills
    ensures FillCoherent(Apply(x, s, e), id, user)
  {
    if id in s.fills { assert FillCoherent(s, id, user); }
  }

  lemma {:induction false} CoherentEntry(x: Setting, s: State, e: Step, key: string, user: nat)
    requires Coherent(x, s, user) && Enabled(x, s, e) && CalmStep(s, e, user) && key in Apply(x, s, e).cache
    ensures EntryCoherent(x, Apply(x, s, e), key, user)
  {
    if e.Finish? && e.stored && key == KeyOf(s.fills[e.id].request, x.stamp) {
      assert FillCoherent(s, e.id, user);
    } else {
      assert EntryCoherent(x, s, key, user);
      if e.Invalidate? { PrefixOwn(e.user, s.cache[key].fill.request, x.stamp); }
    }
  }

  lemma {:induction false} RunKeepsCoherent(x: Setting, s: State, run: seq<Step>, user: nat)
    requires Coherent(x, s, user) && Possible(x, s, run) && Calm(x, s, run, user)
    ensures Coherent(x, After(x, s, run), user)
    decreases |run|
  {
    if run != [] {
      var s' := Apply(x, s, run[0]);
      forall id | id in s'.fills ensures FillCoherent(s', id, user) {
        CoherentFill(x, s, run[0], id, user);
      }
      forall key | key in s'.cache ensures EntryCoherent(x, s', key, user) {
        CoherentEntry(x, s, run[0], key, user);
      }
      RunKeepsCoherent(x, s', run[1..], user);
    }
  }

  /** When the user's fills overlap none of the user's writes, every one of those writes has been
      invalidated completely, and ranges are whole seconds, a served report is exactly what computing
      it now would give. Reports may be requested at any time, also between a write and its
      invalidation, and other users may do anything. */
  lemma {:induction false} ServedIsFresh(x: Setting, run: seq<Step>, r: Request, at: int)
    requires Stamps(x.stamp) && Possible(x, START, run) && Calm(x, START, run, r.user) && Whole(r)
    requires r.user !in After(x, START, run).dirty && Served(x, After(x, START, run), r, at).Some?
    ensures var s := After(x, START, run); var f := Served(x, s, r, at).value;
      && f.request == r && |f.parts| == x.sections
      && forall k :: 0 <= k < x.sections ==> f.parts[k].text == Fresh(x, s.log, r, k)
  {
    var s := After(x, START, run);
    var f := Served(x, s, r, at).value;
    RunKeepsSound(x, START, run);
    RunKeepsCoherent(x, START, run, r.user);
    assert EntrySound(x, s, KeyOf(r, x.stamp)) && EntryCoherent(x, s, KeyOf(r, x.stamp), r.user);
    PrefixOwn(r.user, f.request, x.stamp);
    PrefixOwn(r.user, r, x.stamp);
    WholeSecondsDecide(f.request, r, x.stamp);
    forall k | 0 <= k < x.sections ensures f.parts[k].text == Fresh(x, s.log, r, k) {
      UnwrittenIsFresh(x, run, r, at, k);
    }
  }

  /** One user's invalidation, complete or not, keeps every entry of every other user. */
  lemma {:induction false} OthersKeepEntries(x: Setting, s: State, e: Step, r: Request)
    requires Enabled(x, s, e) && e.Invalidate? && r.user != e.user
    ensures var key := KeyOf(r, x.stamp); var s' := Apply(x, s, e);
      (key in s'.cache <==> key in s.cache) && (key in s.cache ==> s'.cache[key] == s.cache[key])
  {
    PrefixOwn(e.user, r, x.stamp);
  }

  // ---- what the conditions are for ----

  function CountBudgets(k: nat, rows: Rows, r: Request): string {
    if rows.budgets == [] then "none" else "some"
  }

  function ShowEnd(k: nat, rows: Rows, r: Request): string {
    if r.end.nanos % NANOS_PER_SECOND == 0 then "whole" else "fraction"
  }

  /** Filling one report of one section. */
  function FillRun(r: Request, at: int): seq<Step> {
    [Begin(0, r, at), Read(0, at), Finish(0, at, true)]
  }

  lemma {:induction false} AfterFill(x: Setting, r: Request)
    requires x.sections == 1
    ensures Possible(x, START, FillRun(r, 0))
    ensures var s := After(x, START, FillRun(r, 0));
      s.log == [] && s.clock == 0 && s.fills == map[]
      && s.cache == map[KeyOf(r, x.stamp) := Entry(Fill(r, 0, [Part(Fresh(x, [], r, 0), 0, 0)]), 0)]
  {
    var run := FillRun(r, 0);
    var s1 := Apply(x, START, run[0]);
    var s2 := Apply(x, s1, run[1]);
    var s3 := Apply(x, s2, run[2]);
    StepsFollow(x, s2, run[2], []);
    StepsFollow(x, s1, run[1], [run[2]]);
    StepsFollow(x, START, run[0], [run[1], run[2]]);
    assert run == [run[0]] + [run[1], run[2]];
    assert s3.fills == map[];
    assert s2.fills[0].parts == [Part(Fresh(x, [], r, 0), 0, 0)];
    assert s3.cache == map[KeyOf(r, x.stamp) := Entry(s2.fills[0], 0)];
  }

  /** The request is served a section that computing it now would not give. */
  ghost predicate Stale(x: Setting, s: State, r: Request, at: int) {
    var served := Served(x, s, r, at);
    served.Some? && exists k :: 0 <= k < |served.value.parts| && served.value.parts[k].text != Fresh(x, s.log, r, k)
  }

  /** A write that is not followed by an invalidation, as every import's, is not seen for two minutes. */
  lemma {:induction false} ImportGoesUnseen(stamp: Instant -> string, r: Request, before: Rows, after: Rows, at: int)
    requires before.budgets == [] && after.budgets != [] && 0 <= at < 120 * 1_000_000_000
    ensures var x := Setting(1, CountBudgets, _ => before, stamp);
      var e := Commit(Write(r.user, after, 0));
      && Possible(x, START, FillRun(r, 0)) && Enabled(x, After(x, START, FillRun(r, 0)), e)
      && Stale(x, Apply(x, After(x, START, FillRun(r, 0)), e), r, at)
  {
    var x := Setting(1, CountBudgets, _ => before, stamp);
    AfterFill(x, r);
    var s := Apply(x, After(x, START, FillRun(r, 0)), Commit(Write(r.user, after, 0)));
    assert Served(x, s, r, at).value.parts[0].text == "none";
    assert Fresh(x, s.log, r, 0) == "some";
    assert "none"[0] != "some"[0];
  }

  /** A write and its complete invalidation in the middle of a fill. */
  function RaceRun(r: Request, after: Rows): seq<Step> {
    [Begin(0, r, 0), Read(0, 0), Commit(Write(r.user, after, 0)), Invalidate(r.user, {}, true, 0), Finish(0, 0, true)]
  }

  lemma {:induction false} StepsFollow(x: Setting, s: State, e: Step, rest: seq<Step>)
    requires Enabled(x, s, e) && Possible(x, Apply(x, s, e), rest)
    ensures Possible(x, s, [e] + rest) && After(x, s, [e] + rest) == After(x, Apply(x, s, e), rest)
  {
    assert ([e] + rest)[1..] == rest;
  }

  /** Two ranges that differ only below the second share an entry: the first one's report is served
      for the second. A date-only end means the day's last nanosecond, so such pairs are real. */
  lemma {:induction false} FractionsCollide(stamp: Instant -> string, r: Request, rows: Rows, at: int)
    requires Stamps(stamp) && Ranged(r) && WholeSecond(r.end) && 0 <= at < 120 * 1_000_000_000
    ensures var x := Setting(1, ShowEnd, _ => rows, stamp);
      var q := r.(end := r.end.(nanos := r.end.nanos + NANOS_PER_SECOND - 1));
      Possible(x, START, FillRun(r, 0)) && Stale(x, After(x, START, FillRun(r, 0)), q, at)
  {
    var x := Setting(1, ShowEnd, _ => rows, stamp);
    var q := r.(end := r.end.(nanos := r.end.nanos + NANOS_PER_SECOND - 1));
    AfterFill(x, r);
    var s := After(x, START, FillRun(r, 0));
    assert q.end.nanos / NANOS_PER_SECOND == r.end.nanos / NANOS_PER_SECOND;
    KeyDecides(r, q, stamp);
    assert Served(x, s, q, at).value.parts[0].text == "whole";
    assert Fresh(x, s.log, q, 0) == "fraction";
    assert "whole"[0] != "fraction"[0];
  }

  lemma {:induction false} AfterRace(x: Setting, r: Request, after: Rows)
    requires x.sections == 1
    ensures Possible(x, START, RaceRun(r, after))
    ensures var s := After(x, START, RaceRun(r, after));
      && s.log == [Write(r.user, after, 0)] && s.dirty == {}
      && s.cache == map[KeyOf(r, x.stamp) := Entry(Fill(r, 0, [Part(Fresh(x, [], r, 0), 0, 0)]), 0)]
  {
    var run := RaceRun(r, after);
    var s1 := Apply(x, START, run[0]);
    var s2 := Apply(x, s1, run[1]);
    assert s2.fills[0].parts == [Part(Fresh(x, [], r, 0), 0, 0)];
    var s3 := Apply(x, s2, run[2]);
    var s4 := Apply(x, s3, run[3]);
    StepsFollow(x, s4, run[4], []);
    StepsFollow(x, s3, run[3], [run[4]]);
    StepsFollow(x, s2, run[2], [run[3], run[4]]);
    StepsFollow(x, s1, run[1], [run[2], run[3], run[4]]);
    StepsFollow(x, START, run[0], [run[1], run[2], run[3], run[4]]);
    assert run == [run[0]] + [run[1], run[2], run[3], run[4]];
    assert s4.dirty == {};
  }

  /** The race of every read-through cache: what was read before the write is stored after its
      invalidation, and stays stale for two minutes although no write is left to invalidate. */
  lemma {:induction false} FillRacesWrite(stamp: Instant -> string, r: Request, before: Rows, after: Rows, at: int)
    requires before.budgets == [] && after.budgets != [] && 0 <= at < 120 * 1_000_000_000
    ensures var x := Setting(1, CountBudgets, _ => before, stamp);
      && Possible(x, START, RaceRun(r, after))
      && After(x, START, RaceRun(r, after)).dirty == {}
      && Stale(x, After(x, START, RaceRun(r, after)), r, at)
  {
    var x := Setting(1, CountBudgets, _ => before, stamp);
    AfterRace(x, r, after);
    var s := After(x, START, RaceRun(r, after));
    assert Served(x, s, r, at).value.parts[0].text == "none";
    assert Fresh(x, s.log, r, 0) == "some";
    assert "none"[0] != "some"[0];
  }

  // ---- the store and the service ----

  /** One reply of a scan: the keys it names, whether the scan answered, whether their deletion did. */
  datatype Page = Page(keys: set<string>, scanned: bool, deleted: bool)

  class Redis {
    const enabled: bool
    var entries: map<string, Entry>

    constructor (enabled: bool)
      ensures this.enabled == enabled && entries == map[]
    {
      this.enabled := enabled;
      entries := map[];
    }

    /** Deletes page by page. A scan names only matching keys, and between them its pages name every
        matching key that is there throughout. Success means that none is left; failure may leave
        some; other keys always stay. */
    method DeleteByPrefix(prefix: string, pages: seq<Page>) returns (ok: bool)
      requires forall p :: p in pages ==> forall k :: k in p.keys ==> StartsWith(k, prefix)
      requires forall k :: k in entries && StartsWith(k, prefix) ==> exists p :: p in pages && k in p.keys
      modifies this
      ensures forall k :: k in old(entries) && (k in entries || !StartsWith(k, prefix)) ==>
        k in entries && entries[k] == old(entries)[k]
      ensures entries.Keys <= old(entries).Keys
      ensures ok && enabled ==> prefix != "" && forall k :: k in entries ==> !StartsWith(k, prefix)
      ensures !enabled ==> ok && entries == old(entries)
      ensures prefix == "" ==> entries == old(entries)
    {
      if !enabled {
        return true;
      }
      if prefix == "" {
        return false;
      }
      for i := 0 to |pages|
        invariant entries.Keys <= old(entries).Keys
        invariant forall k :: k in old(entries) && (k in entries || !StartsWith(k, prefix)) ==>
          k in entries && entries[k] == old(entries)[k]
        invariant forall k, j :: 0 <= j < i && k in pages[j].keys ==> k !in entries
      {
        if !pages[i].scanned {
          return false;
        }
        if pages[i].keys != {} {
          if !pages[i].deleted {
            return false;
          }
          assert pages[i] in pages;
          entries := entries - pages[i].keys;
        }
      }
      ok := true;
      forall k | k in old(entries) && StartsWith(k, prefix) ensures k !in entries {
        var p :| p in pages && k in p.keys;
        var j :| 0 <= j < |pages| && pages[j] == p;
      }
      assert forall k :: k in entries ==> k in old(entries).Keys;
    }

    /** An invalidation does to the entries what the Invalidate step does, whether or not it ends. */
    method InvalidateUser(user: nat, pages: seq<Page>) returns (gone: set<string>, complete: bool)
      requires forall p :: p in pages ==> forall k :: k in p.keys ==> StartsWith(k, Prefix(user))
      requires forall k :: k in entries && StartsWith(k, Prefix(user)) ==> exists p :: p in pages && k in p.keys
      modifies this
      ensures entries == old(entries) - gone
      ensures forall k :: k in gone ==> k in old(entries) && StartsWith(k, Prefix(user))
      ensures complete && enabled ==> forall k :: k in old(entries) && StartsWith(k, Prefix(user)) ==> k in gone
    {
      var before := entries;
      complete := true;
      if enabled {
        complete := DeleteByPrefix(Prefix(user), pages);
      }
      gone := before.Keys - entries.Keys;
      assert forall k :: k in before && k !in gone ==> k in entries;
      assert entries == before - gone;
    }

    /** Serves what the store holds for the request; otherwise answers with what was computed, and
        leaves the entries as the runs do: as the Finish step of the computation when its report is
        stored or lost, as Abandon when computing failed. `s` is the state of the runs at that
        moment, with the computation in slot `id`. */
    method Summary(x: Setting, r: Request, at: int, readFails: bool, computed: Result<Fill>, storedAt: int,
                   writeFails: bool, ghost s: State, ghost id: nat)
      returns (report: Result<Fill>)
      requires s.cache == entries
      requires computed.Ok? ==>
        && id in s.fills && s.fills[id] == computed.value && computed.value.request == r
        && Enabled(x, s, Finish(id, storedAt, enabled && !writeFails))
      modifies this
      ensures var held := if enabled && !readFails then Served(x, s, r, at) else None;
        if held.Some? then report == Ok(held.value) && entries == s.cache
        else
          && report == computed
          && entries
            == Apply(x, s, if computed.Ok? then Finish(id, storedAt, enabled && !writeFails) else Abandon(id)).cache
    {
      var key := KeyOf(r, x.stamp);
      if enabled {
        if !readFails && key in entries && at < entries[key].storedAt + TTL {
          return Ok(entries[key].fill);
        }
      }
      if computed.Err? {
        return computed;
      }
      if enabled && !writeFails {
        entries := entries[key := Entry(computed.value, storedAt)];
      }
      return computed;
    }
  }
}
