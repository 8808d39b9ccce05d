/**
 The migration runner as a crash-and-resume protocol: each file runs in one
 transaction together with the record of its version.
 */
module Migrations {
  import opened Common
  import opened SqlLexer
  import opened Text
  import SqlSplitter

  /** One statement against the database: it works, meets an existing object, or fails. */
  datatype Exec<D> = Done(db: D) | AlreadyExists | Broken

  datatype File = File(name: string, sql: string)

  /** The migrated data and the rows of schema_migrations, in insertion order. */
  datatype State<D> = State(data: D, applied: seq<string>)

  datatype Outcome<D> = Outcome(state: State<D>, ok: bool)

  /** The file name without its extension. */
  function Version(name: string): string {
    if LastDot(name) < 0 then name else name[..LastDot(name)]
  }

  predicate IsSqlName(name: string) {
    |name| >= 4 && name[|name| - 4..] == ".sql"
  }

  /** The version of a *.sql file is its name without the ending. */
  lemma {:induction false} VersionNames(name: string)
    requires IsSqlName(name)
    ensures Version(name) + ".sql" == name
  {
    var ext := name[|name| - 4..];
    var n := |name| - 4;
    assert name[n] == ext[0] && name[n + 1] == ext[1] && name[n + 2] == ext[2] && name[n + 3] == ext[3];
    assert LastDot(name) == |name| - 4;
  }

  /** Different *.sql files have different versions. */
  lemma {:induction false} VersionInjective(a: string, b: string)
    requires IsSqlName(a) && IsSqlName(b) && Version(a) == Version(b)
    ensures a == b
  {
    VersionNames(a);
    VersionNames(b);
  }

  /** A file as the runner uses it: its version and its statements. */
  datatype Migration = Migration(version: string, statements: seq<string>)

  function Load(f: File): Migration { Migration(Version(f.name), Split(f.sql)) }

  /** ms is what the listed files hold. */
  ghost predicate IsLoaded(files: seq<File>, ms: seq<Migration>) {
    |ms| == |files| && forall k {:trigger Load(files[k])} :: 0 <= k < |files| ==> ms[k] == Load(files[k])
  }

  predicate DistinctVersions(ms: seq<Migration>) {
    forall j, k :: 0 <= j < k < |ms| ==> ms[j].version != ms[k].version
  }

  /** A directory listing of *.sql files gives pairwise different versions. */
  lemma {:induction false} ListingDistinct(files: seq<File>, ms: seq<Migration>)
    requires IsLoaded(files, ms)
    requires forall k :: 0 <= k < |files| ==> IsSqlName(files[k].name)
    requires forall j, k :: 0 <= j < k < |files| ==> files[j].name != files[k].name
    ensures DistinctVersions(ms)
  {
    forall j, k | 0 <= j < k < |ms| ensures ms[j].version != ms[k].version {
      assert ms[j] == Load(files[j]) && ms[k] == Load(files[k]);
      if Version(files[j].name) == Version(files[k].name) { VersionInjective(files[j].name, files[k].name); }
    }
  }

  // ----- specification -----

  /** The statements of one file in order; an existing object is passed over. */
  function RunStatements<D>(exec: (D, string) -> Exec<D>, stmts: seq<string>, db: D): Option<D> {
    if stmts == [] then Some(db)
    else match exec(db, stmts[0])
      case Done(next) => RunStatements(exec, stmts[1..], next)
      case AlreadyExists => RunStatements(exec, stmts[1..], db)
      case Broken => None
  }

  /** The statements sent to the database for one file, up to the one that fails. */
  function Sent<D>(exec: (D, string) -> Exec<D>, stmts: seq<string>, db: D): seq<string> {
    if stmts == [] then []
    else match exec(db, stmts[0])
      case Done(next) => [stmts[0]] + Sent(exec, stmts[1..], next)
      case AlreadyExists => [stmts[0]] + Sent(exec, stmts[1..], db)
      case Broken => [stmts[0]]
  }

  /** One file: skipped when recorded, otherwise run and recorded together or not at all. */
  function Migrate<D>(exec: (D, string) -> Exec<D>, m: Migration, s: State<D>): Option<State<D>> {
    if m.version in s.applied then Some(s)
    else match RunStatements(exec, m.statements, s.data)
      case None => None
      case Some(db) => Some(State(db, s.applied + [m.version]))
  }

  /** A run from file k on; interrupted(k) says it ends before file k commits. */
  function RunFrom<D>(exec: (D, string) -> Exec<D>, ms: seq<Migration>, interrupted: nat -> bool, k: nat,
                      s: State<D>): Outcome<D>
    requires k <= |ms|
    decreases |ms| - k
  {
    if k == |ms| then Outcome(s, true)
    else if interrupted(k) then Outcome(s, false)
    else match Migrate(exec, ms[k], s)
      case None => Outcome(s, false)
      case Some(next) => RunFrom(exec, ms, interrupted, k + 1, next)
  }

  /** A whole run; without any file there is nothing to migrate, which is an error. */
  function Run<D>(exec: (D, string) -> Exec<D>, ms: seq<Migration>, interrupted: nat -> bool, s: State<D>): Outcome<D> {
    if ms == [] then Outcome(s, false) else RunFrom(exec, ms, interrupted, 0, s)
  }

  function Never(): nat -> bool { k => false }

  // ----- the runner -----

  class Migrator<D(!new)> {
    var data: D
    var applied: seq<string>
    var sent: seq<string>  // the statements of every transaction the runner saw through, committed or rolled back

    ghost function Now(): State<D>
      reads this
    {
      State(data, applied)
    }

    constructor (data: D, applied: seq<string>)
      ensures Now() == State(data, applied) && sent == []
    {
      this.data, this.applied, this.sent := data, applied, [];
    }

    /** The transaction body of one file; a failure restores the data. */
    method Apply(exec: (D, string) -> Exec<D>, m: Migration) returns (ok: bool)
      requires m.version !in applied
      modifies this
      ensures sent == old(sent) + Sent(exec, m.statements, old(data))
      ensures match Migrate(exec, m, old(Now()))
        case None => !ok && Now() == old(Now())
        case Some(next) => ok && Now() == next
    {
      var saved := data;
      var stmts := m.statements;
      for i := 0 to |stmts|
        invariant applied == old(applied)
        invariant sent + Sent(exec, stmts[i..], data) == old(sent) + Sent(exec, stmts, saved)
        invariant RunStatements(exec, stmts[i..], data) == RunStatements(exec, stmts, saved)
      {
        assert stmts[i..][1..] == stmts[i + 1..];
        sent := sent + [stmts[i]];
        match exec(data, stmts[i]) {
          case Done(next) => data := next;
          case AlreadyExists =>
          case Broken =>
            data := saved;
            return false;
        }
      }
      applied := applied + [m.version];
      ok := true;
    }

    /** runMigrations over the sorted file list; ms names what the files hold. */
    method RunMigrations(exec: (D, string) -> Exec<D>, files: seq<File>, ghost ms: seq<Migration>,
                         interrupted: nat -> bool) returns (ok: bool)
      requires IsLoaded(files, ms)
      modifies this
      ensures Outcome(Now(), ok) == Run(exec, ms, interrupted, old(Now()))
      ensures sent == old(sent) + AllSent(exec, ms, interrupted, 0, old(Now()))
      ensures |old(sent)| <= |sent|
        && Executes(exec, ms, interrupted, old(Now()), sent[|old(sent)|..], Outcome(Now(), ok))
    {
      ghost var start, before := Now(), sent;
      if files == [] {
        RunEnds(exec, ms, interrupted, start, before, sent, Outcome(Now(), false));
        return false;
      }
      for k := 0 to |files|
        invariant RunFrom(exec, ms, interrupted, k, Now()) == RunFrom(exec, ms, interrupted, 0, start)
        invariant sent + AllSent(exec, ms, interrupted, k, Now()) == before + AllSent(exec, ms, interrupted, 0, start)
      {
        if interrupted(k) {
          RunEnds(exec, ms, interrupted, start, before, sent, Outcome(Now(), false));
          return false;
        }
        FileThenRest(exec, ms, interrupted, k, Now());
        var m := Read(files, ms, k);
        if m.version in applied {
          continue;
        }
        ghost var data, sentSoFar := data, sent;
        var done := Apply(exec, m);
        if !done {
          RunEnds(exec, ms, interrupted, start, before, sent, Outcome(Now(), false));
          return false;
        }
        Associate(sentSoFar, Sent(exec, m.statements, data), AllSent(exec, ms, interrupted, k + 1, Now()));
      }
      RunEnds(exec, ms, interrupted, start, before, sent, Outcome(Now(), true));
      ok := true;
    }
  }

  lemma {:induction false} RunEnds<D(!new)>(exec: (D, string) -> Exec<D>, ms: seq<Migration>, interrupted: nat -> bool,
                                            s: State<D>, before: seq<string>, sent: seq<string>, r: Outcome<D>)
    requires r == Run(exec, ms, interrupted, s) && sent == before + AllSent(exec, ms, interrupted, 0, s)
    ensures |before| <= |sent| && Executes(exec, ms, interrupted, s, sent[|before|..], r)
  {
    RunMeans(exec, ms, interrupted, s);
    assert sent[|before|..] == AllSent(exec, ms, interrupted, 0, s);
  }

  method Read(files: seq<File>, ghost ms: seq<Migration>, k: nat) returns (m: Migration)
    requires IsLoaded(files, ms) && k < |files|
    ensures m == ms[k]
  {
    assert ms[k] == Load(files[k]);
    var stmts := SqlSplitter.SplitSQLStatements(files[k].sql);
    m := Migration(Version(files[k].name), stmts);
  }

  /** Every statement a run sends from file k on. */
  function AllSent<D>(exec: (D, string) -> Exec<D>, ms: seq<Migration>, interrupted: nat -> bool, k: nat,
                      s: State<D>): seq<string>
    requires k <= |ms|
    decreases |ms| - k
  {
    if k == |ms| || interrupted(k) then []
    else
      var here := if ms[k].version in s.applied then [] else Sent(exec, ms[k].statements, s.data);
      match Migrate(exec, ms[k], s)
      case None => here
      case Some(next) => here + AllSent(exec, ms, interrupted, k + 1, next)
  }

  /** What is left of a run before file k is that file and what is left after it. */
  lemma {:induction false} FileThenRest<D>(exec: (D, string) -> Exec<D>, ms: seq<Migration>, interrupted: nat -> bool,
                                           k: nat, s: State<D>)
    requires k < |ms| && !interrupted(k)
    ensures var here := if ms[k].version in s.applied then [] else Sent(exec, ms[k].statements, s.data);
      match Migrate(exec, ms[k], s)
      case None =>
        && RunFrom(exec, ms, interrupted, k, s) == Outcome(s, false)
        && AllSent(exec, ms, interrupted, k, s) == here
      case Some(next) =>
        && RunFrom(exec, ms, interrupted, k, s) == RunFrom(exec, ms, interrupted, k + 1, next)
        && AllSent(exec, ms, interrupted, k, s) == here + AllSent(exec, ms, interrupted, k + 1, next)
  {
  }

  // ----- theorems -----

  /** Recorded versions are only ever added, each once. */
  lemma {:induction false} RunRecords<D>(exec: (D, string) -> Exec<D>, ms: seq<Migration>, interrupted: nat -> bool,
                                         k: nat, s: State<D>)
    requires k <= |ms|
    ensures var r := RunFrom(exec, ms, interrupted, k, s);
      && s.applied <= r.state.applied
      && (NoRepeats(s.applied) ==> NoRepeats(r.state.applied))
      && (r.ok ==> forall j :: k <= j < |ms| ==> ms[j].version in r.state.applied)
    decreases |ms| - k
  {
    if k < |ms| && !interrupted(k) {
      var m := Migrate(exec, ms[k], s);
      if m.Some? {
        RunRecords(exec, ms, interrupted, k + 1, m.value);
        assert ms[k].version in m.value.applied;
      }
    }
  }

  /** A run skips the files whose versions are recorded. */
  lemma {:induction false} SkipRecorded<D>(exec: (D, string) -> Exec<D>, ms: seq<Migration>, interrupted: nat -> bool,
                                           k: nat, n: nat, s: State<D>)
    requires k <= n <= |ms| && (forall j :: k <= j < n ==> !interrupted(j))
    requires forall j :: k <= j < n ==> ms[j].version in s.applied
    ensures RunFrom(exec, ms, interrupted, k, s) == RunFrom(exec, ms, interrupted, n, s)
    ensures AllSent(exec, ms, interrupted, k, s) == AllSent(exec, ms, interrupted, n, s)
    decreases n - k
  {
    if k < n { SkipRecorded(exec, ms, interrupted, k + 1, n, s); }
  }

  /**
   Resuming: however a run was interrupted, an uninterrupted run afterwards ends as one
   uninterrupted run from the start would have, in state and in success.
   */
  lemma {:induction false} ResumeFrom<D>(exec: (D, string) -> Exec<D>, ms: seq<Migration>, interrupted: nat -> bool,
                                         k: nat, s: State<D>)
    requires k <= |ms| && forall j :: 0 <= j < k ==> ms[j].version in s.applied
    ensures RunFrom(exec, ms, Never(), 0, RunFrom(exec, ms, interrupted, k, s).state)
      == RunFrom(exec, ms, Never(), k, s)
    decreases |ms| - k
  {
    SkipRecorded(exec, ms, Never(), 0, k, s);
    if k < |ms| && !interrupted(k) {
      var m := Migrate(exec, ms[k], s);
      if m.Some? {
        assert forall j :: 0 <= j < k ==> ms[j].version in m.value.applied;
        ResumeFrom(exec, ms, interrupted, k + 1, m.value);
      }
    }
  }

  /** Several runs in a row, each with its own interruption. */
  function Runs<D>(exec: (D, string) -> Exec<D>, ms: seq<Migration>, plans: seq<nat -> bool>, s: State<D>): State<D> {
    if plans == [] then s
    else Runs(exec, ms, plans[1..], Run(exec, ms, plans[0], s).state)
  }

  lemma {:induction false} InterruptedRunsResume<D>(exec: (D, string) -> Exec<D>, ms: seq<Migration>,
                                                    plans: seq<nat -> bool>, s: State<D>)
    ensures Run(exec, ms, Never(), Runs(exec, ms, plans, s)) == Run(exec, ms, Never(), s)
  {
    if plans != [] && ms != [] {
      ResumeFrom(exec, ms, plans[0], 0, s);
      InterruptedRunsResume(exec, ms, plans[1..], Run(exec, ms, plans[0], s).state);
    } else if plans != [] {
      InterruptedRunsResume(exec, ms, plans[1..], s);
    }
  }

  function Versions(ms: seq<Migration>): (vs: seq<string>)
    ensures |vs| == |ms| && forall k :: 0 <= k < |ms| ==> vs[k] == ms[k].version
  {
    seq(|ms|, k requires 0 <= k < |ms| => ms[k].version)
  }

  /** From a state whose records are the first n versions, a run leaves the first m >= n, and all of
      them when it succeeds. */
  lemma {:induction false} PrefixFrom<D>(exec: (D, string) -> Exec<D>, ms: seq<Migration>, interrupted: nat -> bool,
                                         k: nat, n: nat, s: State<D>)
    requires DistinctVersions(ms) && k <= n <= |ms| && s.applied == Versions(ms)[..n]
    ensures var r := RunFrom(exec, ms, interrupted, k, s);
      exists m :: n <= m <= |ms| && r.state.applied == Versions(ms)[..m] && (r.ok ==> m == |ms|)
    decreases |ms| - k
  {
    if k < |ms| && !interrupted(k) {
      var vs := Versions(ms);
      if k < n {
        assert vs[..n][k] == ms[k].version;
        PrefixFrom(exec, ms, interrupted, k + 1, n, s);
      } else {
        forall j | 0 <= j < k ensures vs[j] != vs[k] {
        }
        assert ms[k].version !in s.applied;
        var m := Migrate(exec, ms[k], s);
        if m.Some? {
          assert vs[..n] + [vs[k]] == vs[..k + 1];
          PrefixFrom(exec, ms, interrupted, k + 1, k + 1, m.value);
        }
      }
    }
  }

  /** On a fresh database the recorded versions are always a prefix of the sorted list. */
  lemma {:induction false} RunsKeepPrefix<D>(exec: (D, string) -> Exec<D>, ms: seq<Migration>,
                                             plans: seq<nat -> bool>, s: State<D>, n: nat)
    requires DistinctVersions(ms) && n <= |ms| && s.applied == Versions(ms)[..n]
    ensures exists m :: n <= m <= |ms| && Runs(exec, ms, plans, s).applied == Versions(ms)[..m]
  {
    if plans != [] {
      var next := Run(exec, ms, plans[0], s).state;
      if ms != [] { PrefixFrom(exec, ms, plans[0], 0, n, s); }
      var m :| n <= m <= |ms| && next.applied == Versions(ms)[..m];
      RunsKeepPrefix(exec, ms, plans[1..], next, m);
    }
  }

  /** After a successful run, another run changes nothing and sends no statement. */
  lemma {:induction false} RunAfterSuccess<D>(exec: (D, string) -> Exec<D>, ms: seq<Migration>, first: nat -> bool,
                                              again: nat -> bool, s: State<D>)
    requires Run(exec, ms, first, s).ok
    ensures var done := Run(exec, ms, first, s).state;
      Run(exec, ms, again, done).state == done && AllSent(exec, ms, again, 0, done) == []
      && Run(exec, ms, Never(), done).ok
  {
    var done := Run(exec, ms, first, s).state;
    RunRecords(exec, ms, first, 0, s);
    SkipRecorded(exec, ms, Never(), 0, |ms|, done);
    NothingLeft(exec, ms, again, 0, done);
  }

  lemma {:induction false} NothingLeft<D>(exec: (D, string) -> Exec<D>, ms: seq<Migration>, again: nat -> bool,
                                          k: nat, s: State<D>)
    requires k <= |ms| && forall j :: k <= j < |ms| ==> ms[j].version in s.applied
    ensures RunFrom(exec, ms, again, k, s).state == s && AllSent(exec, ms, again, k, s) == []
    decreases |ms| - k
  {
    if k < |ms| && !again(k) { NothingLeft(exec, ms, again, k + 1, s); }
  }

  // ----- what a run does to the data -----

  /** dbs are the databases between the statements: each works, or meets an existing object and changes nothing. */
  ghost predicate Steps<D>(exec: (D, string) -> Exec<D>, stmts: seq<string>, dbs: seq<D>) {
    && |dbs| == |stmts| + 1
    && forall k {:trigger stmts[k]} :: 0 <= k < |stmts| ==>
      || exec(dbs[k], stmts[k]) == Done(dbs[k + 1])
      || (exec(dbs[k], stmts[k]) == AlreadyExists && dbs[k + 1] == dbs[k])
  }

  /** The statements of the files from k to n that are not recorded, in order. */
  function Todo(ms: seq<Migration>, k: nat, n: nat, applied: seq<string>): seq<string>
    requires k <= n <= |ms|
    decreases n - k
  {
    if k == n then []
    else if ms[k].version in applied then Todo(ms, k + 1, n, applied)
    else ms[k].statements + Todo(ms, k + 1, n, applied + [ms[k].version])
  }

  /** The records after the files from k to n. */
  function Recorded(ms: seq<Migration>, k: nat, n: nat, applied: seq<string>): seq<string>
    requires k <= n <= |ms|
    decreases n - k
  {
    if k == n then applied
    else Recorded(ms, k + 1, n, if ms[k].version in applied then applied else applied + [ms[k].version])
  }

  lemma {:induction false} StepsCons<D>(exec: (D, string) -> Exec<D>, stmts: seq<string>, db: D, dbs: seq<D>)
    requires stmts != [] && Steps(exec, stmts[1..], dbs)
    requires exec(db, stmts[0]) == Done(dbs[0]) || (exec(db, stmts[0]) == AlreadyExists && dbs[0] == db)
    ensures Steps(exec, stmts, [db] + dbs)
  {
    forall k | 0 <= k < |stmts|
      ensures var all := [db] + dbs;
        || exec(all[k], stmts[k]) == Done(all[k + 1])
        || (exec(all[k], stmts[k]) == AlreadyExists && all[k + 1] == all[k])
    {
      if k > 0 { assert stmts[1..][k - 1] == stmts[k]; }
    }
  }

  lemma {:induction false} StepsAppend<D>(exec: (D, string) -> Exec<D>, a: seq<string>, dbs: seq<D>, b: seq<string>,
                                          more: seq<D>)
    requires Steps(exec, a, dbs) && Steps(exec, b, more) && dbs[|a|] == more[0]
    ensures Steps(exec, a + b, dbs + more[1..])
    ensures (dbs + more[1..])[0] == dbs[0] && (dbs + more[1..])[|a + b|] == more[|b|]
  {
    var stmts, all := a + b, dbs + more[1..];
    forall k | 0 <= k < |stmts|
      ensures || exec(all[k], stmts[k]) == Done(all[k + 1])
              || (exec(all[k], stmts[k]) == AlreadyExists && all[k + 1] == all[k])
    {
      if k < |a| {
        assert stmts[k] == a[k] && all[k] == dbs[k] && all[k + 1] == dbs[k + 1];
      } else {
        var j := k - |a|;
        assert stmts[k] == b[j] && all[k] == more[j] && all[k + 1] == more[j + 1];
      }
    }
  }

  lemma {:induction false} FileRuns<D>(exec: (D, string) -> Exec<D>, stmts: seq<string>, db: D) returns (dbs: seq<D>)
    requires RunStatements(exec, stmts, db).Some?
    ensures Steps(exec, stmts, dbs) && dbs[0] == db && dbs[|stmts|] == RunStatements(exec, stmts, db).value
    ensures Sent(exec, stmts, db) == stmts
  {
    if stmts == [] {
      dbs := [db];
    } else {
      var next := match exec(db, stmts[0]) case Done(d) => d case _ => db;
      var rest := FileRuns(exec, stmts[1..], next);
      StepsCons(exec, stmts, db, rest);
      dbs := [db] + rest;
      assert [stmts[0]] + stmts[1..] == stmts;
    }
  }

  /** A file that fails has a first statement that does. */
  lemma {:induction false} FileBreaks<D>(exec: (D, string) -> Exec<D>, stmts: seq<string>, db: D)
    returns (n: nat, dbs: seq<D>)
    requires RunStatements(exec, stmts, db).None?
    ensures n < |stmts| && Steps(exec, stmts[..n], dbs) && dbs[0] == db && exec(dbs[n], stmts[n]).Broken?
    ensures Sent(exec, stmts, db) == stmts[..n + 1]
  {
    match exec(db, stmts[0])
    case Broken =>
      n, dbs := 0, [db];
    case _ =>
      var next := match exec(db, stmts[0]) case Done(d) => d case _ => db;
      var m, rest := FileBreaks(exec, stmts[1..], next);
      n, dbs := m + 1, [db] + rest;
      assert stmts[..n][1..] == stmts[1..][..m];
      StepsCons(exec, stmts[..n], db, rest);
      assert [stmts[0]] + stmts[1..][..m + 1] == stmts[..n + 1];
  }

  /** Where a run that is not ok ended: before an interrupted file, or in the first file that fails. */
  ghost predicate Ended<D(!new)>(exec: (D, string) -> Exec<D>, ms: seq<Migration>, interrupted: nat -> bool, n: nat,
                                 s: State<D>, tail: seq<string>)
    requires n < |ms|
  {
    if interrupted(n) then tail == []
    else
      && ms[n].version !in s.applied
      && exists j, dbs :: Breaks(exec, ms[n].statements, s.data, j, dbs) && tail == ms[n].statements[..j + 1]
  }

  ghost predicate Breaks<D>(exec: (D, string) -> Exec<D>, stmts: seq<string>, db: D, j: nat, dbs: seq<D>) {
    j < |stmts| && Steps(exec, stmts[..j], dbs) && dbs[0] == db && exec(dbs[j], stmts[j]).Broken?
  }

  /**
   A run takes the data through the statements of the unrecorded files, in order, up to some file
   n: the records and the data are those of these files alone, whether it succeeds with all of
   them, is interrupted, or meets a file that fails.  What it sends are exactly these statements,
   and those of the failing file up to the one that fails.
   */
  lemma {:induction false} RunExecutes<D(!new)>(exec: (D, string) -> Exec<D>, ms: seq<Migration>,
                                          interrupted: nat -> bool, k: nat, s: State<D>)
    returns (n: nat, dbs: seq<D>, tail: seq<string>)
    requires k <= |ms|
    ensures k <= n <= |ms| && Steps(exec, Todo(ms, k, n, s.applied), dbs) && dbs[0] == s.data
    ensures var r := RunFrom(exec, ms, interrupted, k, s); var todo := Todo(ms, k, n, s.applied);
      && r.state == State(dbs[|todo|], Recorded(ms, k, n, s.applied)) && (r.ok <==> n == |ms|)
      && AllSent(exec, ms, interrupted, k, s) == todo + tail
      && if n == |ms| then tail == [] else Ended(exec, ms, interrupted, n, r.state, tail)
    decreases |ms| - k
  {
    if k == |ms| || interrupted(k) {
      n, dbs, tail := k, [s.data], [];
    } else if ms[k].version in s.applied {
      n, dbs, tail := RunExecutes(exec, ms, interrupted, k + 1, s);
    } else if Migrate(exec, ms[k], s).None? {
      var j, before := FileBreaks(exec, ms[k].statements, s.data);
      n, dbs, tail := k, [s.data], ms[k].statements[..j + 1];
      assert Breaks(exec, ms[k].statements, s.data, j, before);
    } else {
      var here := FileRuns(exec, ms[k].statements, s.data);
      var next := Migrate(exec, ms[k], s).value;
      var more;
      n, more, tail := RunExecutes(exec, ms, interrupted, k + 1, next);
      StepsAppend(exec, ms[k].statements, here, Todo(ms, k + 1, n, next.applied), more);
      dbs := here + more[1..];
      Associate(ms[k].statements, Todo(ms, k + 1, n, next.applied), tail);
    }
  }

  /** What a run comes to, said of the statements alone. */
  ghost predicate Executes<D(!new)>(exec: (D, string) -> Exec<D>, ms: seq<Migration>, interrupted: nat -> bool,
                                    s: State<D>, sent: seq<string>, r: Outcome<D>) {
    exists n, dbs, tail :: ExecutesTo(exec, ms, interrupted, s, sent, r, n, dbs, tail)
  }

  ghost predicate ExecutesTo<D(!new)>(exec: (D, string) -> Exec<D>, ms: seq<Migration>, interrupted: nat -> bool,
                                      s: State<D>, sent: seq<string>, r: Outcome<D>, n: nat, dbs: seq<D>,
                                      tail: seq<string>) {
    && n <= |ms|
    && var todo := Todo(ms, 0, n, s.applied);
      && Steps(exec, todo, dbs) && dbs[0] == s.data
      && r.state == State(dbs[|todo|], Recorded(ms, 0, n, s.applied)) && sent == todo + tail
      && (r.ok <==> n == |ms| && ms != [])
      && if n == |ms| then tail == [] else Ended(exec, ms, interrupted, n, r.state, tail)
  }

  lemma {:induction false} RunMeans<D(!new)>(exec: (D, string) -> Exec<D>, ms: seq<Migration>, interrupted: nat -> bool,
                                             s: State<D>)
    ensures Executes(exec, ms, interrupted, s, AllSent(exec, ms, interrupted, 0, s), Run(exec, ms, interrupted, s))
  {
    var n, dbs, tail := RunExecutes(exec, ms, interrupted, 0, s);
    assert ExecutesTo(exec, ms, interrupted, s, AllSent(exec, ms, interrupted, 0, s), Run(exec, ms, interrupted, s),
                      n, dbs, tail);
  }
}
