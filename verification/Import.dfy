/** The import pipeline: parse rows, skip duplicates in the file and in the ledger, write one batch. */
module Import {
  import opened Clock
  import opened Common
  import opened Text
  import opened Ledger
  import opened LedgerStore

  /** What the pipeline takes from outside, beyond what the ledger takes. */
  datatype ImportEnv = ImportEnv(ledger: Env, parseTime: string -> Option<int>, parseCents: string -> Option<int>,
                                 fromCents: int -> real, toCents: real -> int)

  /** ToCentsExact returns what ToCents returns, or an error. */
  ghost predicate Consistent(env: ImportEnv) {
    forall r {:trigger env.ledger.exact(r)} :: env.ledger.exact(r).Some? ==> env.ledger.exact(r).value == env.toCents(r)
  }

  datatype Record = Record(occurredAt: int, kind: string, amount: real, category: string, account: string,
                           note: string, tags: string)

  const DEFAULT_CATEGORY := "\U{9910}\U{996E}"

  type Row = seq<string>

  predicate IsEmptyRow(row: Row) { Trim(Join(row, "")) == "" }

  function Field(row: Row, i: nat): string {
    if i >= |row| then "" else Trim(row[i])
  }

  /** parseImportRecord */
  function ParseRecord(env: ImportEnv, row: Row): Result<Record> {
    var time := env.parseTime(Field(row, 0));
    var kind := env.ledger.lower(Field(row, 1));
    var cents := env.parseCents(Field(row, 2));
    if time.None? then Err("invalid occurred_at")
    else if !IsKind(kind) then Err("invalid type")
    else if cents.None? || cents.value <= 0 then Err("invalid amount")
    else Ok(Record(time.value, kind, env.fromCents(cents.value),
                   FallbackName(Field(row, 3), DEFAULT_CATEGORY), FallbackName(Field(row, 4), DEFAULT_ACCOUNT),
                   Field(row, 5), Field(row, 6)))
  }

  /** strings.Split on one separator. */
  function SplitOn(s: string, sep: char): (parts: seq<string>)
    ensures parts != []
  {
    if s == "" then [""]
    else
      var rest := SplitOn(s[1..], sep);
      if s[0] == sep then [""] + rest else [[s[0]] + rest[0]] + rest[1..]
  }

  function KeepTags(values: seq<string>): seq<string> {
    if values == [] then []
    else if Trim(values[0]) == "" then KeepTags(values[1..])
    else [Trim(values[0])] + KeepTags(values[1..])
  }

  /** splitTags: comma separated, trimmed, without empty ones. */
  function Tags(tags: string): seq<string> {
    if Trim(tags) == "" then [] else KeepTags(SplitOn(tags, ','))
  }

  /** The key rows of one file are compared by: whole seconds, lower-cased names. */
  datatype Key = Key(second: int, kind: string, cents: int, category: string, account: string, note: string,
                     tags: string)

  function KeyOf(env: ImportEnv, r: Record): Key {
    Key(r.occurredAt / NANOS_PER_SECOND, r.kind, env.toCents(r.amount),
        env.ledger.lower(Trim(r.category)), env.ledger.lower(Trim(r.account)), Trim(r.note), Join(Tags(r.tags), ","))
  }

  /** Whether a stored transaction is the one record r would be stored as. */
  predicate Matches(env: ImportEnv, t: Tx, user: nat, r: Record, category: nat, account: nat) {
    t.owner == user && t.occurredAt == r.occurredAt && t.kind == r.kind && t.cents == env.toCents(r.amount)
    && t.category == category && t.account == account && t.note == Trim(r.note) && t.tags == Join(Tags(r.tags), ",")
  }

  /** hasExistingDuplicate */
  predicate HasDuplicate(env: ImportEnv, db: DB, user: nat, r: Record) {
    var category := FindCategory(db, user, r.kind, r.category);
    var account := FindAccount(db, user, r.account);
    category.Some? && account.Some? &&
    exists id | id in db.txs :: Matches(env, db.txs[id], user, r, category.value, account.value)
  }

  // ----- judging the rows -----

  /** What becomes of one row. */
  datatype Verdict = Blank | Bad(why: string) | Repeats(first: nat) | Stored | Fresh

  type Seen = map<Key, nat>

  function Judge(env: ImportEnv, db: DB, user: nat, skip: bool, row: Row, seen: Seen): Verdict {
    if IsEmptyRow(row) then Blank
    else match ParseRecord(env, row)
      case Err(e) => Bad(e)
      case Ok(r) =>
        if skip && KeyOf(env, r) in seen then Repeats(seen[KeyOf(env, r)])
        else if skip && HasDuplicate(env, db, user, r) then Stored
        else Fresh
  }

  /** A fresh row enters the map of seen keys; a row found in the ledger does not. */
  function See(env: ImportEnv, row: Row, i: nat, v: Verdict, seen: Seen): Seen {
    if v.Fresh? && ParseRecord(env, row).Ok? then seen[KeyOf(env, ParseRecord(env, row).value) := i] else seen
  }

  /** The verdicts of the rows from index i on. */
  function Verdicts(env: ImportEnv, db: DB, user: nat, skip: bool, rows: seq<Row>, i: nat,
                    seen: Seen): (vs: seq<Verdict>)
    requires i <= |rows|
    ensures |vs| == |rows| - i
    decreases |rows| - i
  {
    if i == |rows| then []
    else
      var v := Judge(env, db, user, skip, rows[i], seen);
      [v] + Verdicts(env, db, user, skip, rows, i + 1, See(env, rows[i], i, v, seen))
  }

  /** The record of a row, if the row is fresh. */
  function KeptRecord(env: ImportEnv, row: Row, v: Verdict): seq<Record> {
    if v.Fresh? && ParseRecord(env, row).Ok? then [ParseRecord(env, row).value] else []
  }

  /** The records of the fresh rows from index i on. */
  function FreshRecords(env: ImportEnv, rows: seq<Row>, i: nat, vs: seq<Verdict>): seq<Record>
    requires i + |vs| == |rows|
    decreases |vs|
  {
    if vs == [] then [] else KeptRecord(env, rows[i], vs[0]) + FreshRecords(env, rows, i + 1, vs[1..])
  }

  datatype Tally = Tally(total: nat, bad: nat, duplicates: nat, accepted: nat)

  function Add(t: Tally, v: Verdict): Tally {
    match v
    case Blank => t
    case Bad(_) => t.(total := t.total + 1, bad := t.bad + 1)
    case Repeats(_) => t.(total := t.total + 1, duplicates := t.duplicates + 1)
    case Stored => t.(total := t.total + 1, duplicates := t.duplicates + 1)
    case Fresh => t.(total := t.total + 1, accepted := t.accepted + 1)
  }

  function Count(t: Tally, vs: seq<Verdict>): Tally
    decreases |vs|
  {
    if vs == [] then t else Count(Add(t, vs[0]), vs[1..])
  }

  const ZERO := Tally(0, 0, 0, 0)

  lemma {:induction false} CountSums(t: Tally, vs: seq<Verdict>)
    requires t.total == t.bad + t.duplicates + t.accepted
    ensures var n := Count(t, vs); n.total == n.bad + n.duplicates + n.accepted
    decreases |vs|
  {
    if vs != [] { CountSums(Add(t, vs[0]), vs[1..]); }
  }

  /**
   vs are the verdicts of the rows and seens[k] the keys seen before row k, for the first
   n rows.  The loops below use this one row at a time.
   */
  ghost predicate Judged(env: ImportEnv, db: DB, user: nat, skip: bool, rows: seq<Row>, n: nat, vs: seq<Verdict>,
                         seens: seq<Seen>) {
    && n <= |rows| && |vs| == n && |seens| == n + 1 && seens[0] == map[]
    && forall k {:trigger Judge(env, db, user, skip, rows[k], seens[k])} :: 0 <= k < n ==>
      && vs[k] == Judge(env, db, user, skip, rows[k], seens[k])
      && seens[k + 1] == See(env, rows[k], k, vs[k], seens[k])
  }

  lemma {:induction false} JudgeNext(env: ImportEnv, db: DB, user: nat, skip: bool, rows: seq<Row>, n: nat,
                                     vs: seq<Verdict>, seens: seq<Seen>, v: Verdict)
    requires Judged(env, db, user, skip, rows, n, vs, seens) && n < |rows|
    requires v == Judge(env, db, user, skip, rows[n], seens[n])
    ensures Judged(env, db, user, skip, rows, n + 1, vs + [v], seens + [See(env, rows[n], n, v, seens[n])])
  {
    var seen := See(env, rows[n], n, v, seens[n]);
    forall k | 0 <= k < n + 1
      ensures (vs + [v])[k] == Judge(env, db, user, skip, rows[k], (seens + [seen])[k])
      ensures (seens + [seen])[k + 1] == See(env, rows[k], k, (vs + [v])[k], (seens + [seen])[k])
    {
      assert (vs + [v])[k] == if k < n then vs[k] else v;
      assert (seens + [seen])[k] == seens[k] && (seens + [seen])[k + 1] == if k < n then seens[k + 1] else seen;
      if k < n { assert vs[k] == Judge(env, db, user, skip, rows[k], seens[k]); }
    }
  }

  lemma {:induction false} VerdictsHead(env: ImportEnv, db: DB, user: nat, skip: bool, rows: seq<Row>, n: nat,
                                        vs: seq<Verdict>, seens: seq<Seen>)
    returns (v: Verdict, seen: Seen)
    requires Judged(env, db, user, skip, rows, n, vs, seens) && n < |rows|
    ensures Judged(env, db, user, skip, rows, n + 1, vs + [v], seens + [seen])
    ensures Verdicts(env, db, user, skip, rows, n, seens[n]) == [v] + Verdicts(env, db, user, skip, rows, n + 1, seen)
  {
    v := Judge(env, db, user, skip, rows[n], seens[n]);
    seen := See(env, rows[n], n, v, seens[n]);
    JudgeNext(env, db, user, skip, rows, n, vs, seens, v);
  }

  lemma {:induction false} AppendVerdicts(vs: seq<Verdict>, v: Verdict, rest: seq<Verdict>)
    ensures (vs + [v]) + rest == vs + ([v] + rest)
  {
  }

  lemma {:induction false} JudgeFrom(env: ImportEnv, db: DB, user: nat, skip: bool, rows: seq<Row>, n: nat,
                                     vs: seq<Verdict>, seens: seq<Seen>)
    returns (all: seq<Verdict>, seensAll: seq<Seen>)
    requires Judged(env, db, user, skip, rows, n, vs, seens)
    ensures Judged(env, db, user, skip, rows, |rows|, all, seensAll)
    ensures all == vs + Verdicts(env, db, user, skip, rows, n, seens[n])
    decreases |rows| - n
  {
    if n == |rows| {
      all, seensAll := vs, seens;
    } else {
      var v, seen := VerdictsHead(env, db, user, skip, rows, n, vs, seens);
      all, seensAll := JudgeFrom(env, db, user, skip, rows, n + 1, vs + [v], seens + [seen]);
      AppendVerdicts(vs, v, Verdicts(env, db, user, skip, rows, n + 1, seen));
    }
  }

  lemma {:induction false} AllJudged(env: ImportEnv, db: DB, user: nat, skip: bool, rows: seq<Row>)
    returns (seens: seq<Seen>)
    ensures Judged(env, db, user, skip, rows, |rows|, Verdicts(env, db, user, skip, rows, 0, map[]), seens)
  {
    var all;
    all, seens := JudgeFrom(env, db, user, skip, rows, 0, [], [map[]]);
    assert all == Verdicts(env, db, user, skip, rows, 0, map[]);
  }

  // ----- the batch -----

  function RequestOf(r: Record, category: nat, account: nat): Request {
    Request(r.kind, r.amount, category, account, r.note, Tags(r.tags), "import", r.occurredAt, true)
  }

  datatype Resolved = Resolved(db: DB, reqs: seq<Request>)

  /** Find or create the category and the account of one record. */
  function ResolveOne(user: nat, r: Record, db: DB): Result<Resolved> {
    match FindOrCreateCategory(user, r.kind, r.category, db)
    case Err(e) => Err(e)
    case Ok(c) =>
      var a := FindOrCreateAccount(user, r.account, c.db);
      Ok(Resolved(a.db, [RequestOf(r, c.id, a.id)]))
  }

  /** The same for every record in turn. */
  function Resolve(user: nat, recs: seq<Record>, db: DB): Result<Resolved> {
    if recs == [] then Ok(Resolved(db, []))
    else match ResolveOne(user, recs[0], db)
      case Err(e) => Err(e)
      case Ok(one) =>
        match Resolve(user, recs[1..], one.db)
        case Err(e) => Err(e)
        case Ok(rest) => Ok(Resolved(rest.db, one.reqs + rest.reqs))
  }

  /** Rows inserted on the way from db to next. */
  function Inserted(db: DB, next: DB): int {
    (next.nextCategory - db.nextCategory) + (next.nextAccount - db.nextAccount)
  }

  /** The whole batch, as one transaction. */
  function Batch(env: ImportEnv, user: nat, recs: seq<Record>, db: DB): Result<DB> {
    match Resolve(user, recs, db)
    case Err(e) => Err(e)
    case Ok(r) => CreateTxs(env.ledger, user, r.reqs, r.db)
  }

  /** Database writes a batch needs: new categories and accounts, a row and a balance per record. */
  function Writes(user: nat, recs: seq<Record>, db: DB): int {
    match Resolve(user, recs, db)
    case Err(_) => 0
    case Ok(r) => Inserted(db, r.db) + 2 * |recs|
  }

  lemma {:induction false} ResolveOneGrows(user: nat, r: Record, db: DB)
    requires ResolveOne(user, r, db).Ok?
    ensures var one := ResolveOne(user, r, db).value; |one.reqs| == 1 && Inserted(db, one.db) >= 0
  {
  }

  lemma {:induction false} ResolveGrows(user: nat, recs: seq<Record>, db: DB)
    requires Resolve(user, recs, db).Ok?
    ensures var r := Resolve(user, recs, db).value; |r.reqs| == |recs| && Inserted(db, r.db) >= 0
  {
    if recs != [] {
      ResolveOneGrows(user, recs[0], db);
      ResolveGrows(user, recs[1..], ResolveOne(user, recs[0], db).value.db);
    }
  }

  // ----- the services -----

  datatype ImportResult = ImportResult(total: nat, success: nat, failed: nat, skipped: nat)

  datatype Preview = Preview(total: nat, valid: nat, failed: nat, duplicates: nat, sample: seq<PreviewRow>,
                             truncated: bool)

  /** A sampled row: its source line and what the preview says of it. */
  datatype PreviewRow = PreviewRow(line: nat, verdict: Verdict)

  const PREVIEW_ROWS := 20

  /** The sample: the first rows that are not blank. */
  function Sample(i: nat, vs: seq<Verdict>, room: nat): seq<PreviewRow>
    decreases |vs|
  {
    if vs == [] || room == 0 then []
    else if vs[0].Blank? then Sample(i + 1, vs[1..], room)
    else [PreviewRow(i + 2, vs[0])] + Sample(i + 1, vs[1..], room - 1)
  }

  lemma {:induction false} SampleBound(i: nat, vs: seq<Verdict>, room: nat)
    ensures |Sample(i, vs, room)| <= room
    decreases |vs|
  {
    if vs != [] && room != 0 { SampleBound(i + 1, vs[1..], if vs[0].Blank? then room else room - 1); }
  }

  lemma {:induction false} SampleStep(sample: seq<PreviewRow>, i: nat, vs: seq<Verdict>)
    requires vs != [] && !vs[0].Blank? && |sample| < PREVIEW_ROWS
    ensures sample + Sample(i, vs, PREVIEW_ROWS - |sample|)
      == (sample + [PreviewRow(i + 2, vs[0])]) + Sample(i + 1, vs[1..], PREVIEW_ROWS - |sample| - 1)
  {
  }

  /** later(i) are the records kept from row i on, without showing how that is defined. */
  ghost predicate KeepsLater(later: int -> seq<Record>, env: ImportEnv, rows: seq<Row>, vs: seq<Verdict>) {
    |vs| == |rows| && forall i {:trigger FreshRecords(env, rows, i, vs[i..])} :: 0 <= i <= |rows| ==>
      later(i) == FreshRecords(env, rows, i, vs[i..])
  }

  lemma {:induction false} LaterRecords(env: ImportEnv, rows: seq<Row>, vs: seq<Verdict>)
    returns (later: int -> seq<Record>)
    requires |vs| == |rows|
    ensures KeepsLater(later, env, rows, vs)
    ensures later(0) == FreshRecords(env, rows, 0, vs) && later(|rows|) == []
  {
    later := i => if 0 <= i <= |vs| && |vs| == |rows| then FreshRecords(env, rows, i, vs[i..]) else [];
    assert vs[0..] == vs;
  }

  lemma {:induction false} LaterStep(later: int -> seq<Record>, env: ImportEnv, rows: seq<Row>, vs: seq<Verdict>,
                                     i: nat)
    requires KeepsLater(later, env, rows, vs) && i < |rows|
    ensures later(i) == KeptRecord(env, rows[i], vs[i]) + later(i + 1)
  {
    assert vs[i..][1..] == vs[i + 1..];
    assert later(i) == FreshRecords(env, rows, i, vs[i..]);
    assert later(i + 1) == FreshRecords(env, rows, i + 1, vs[i + 1..]);
  }

  lemma {:induction false} AppendKept(records: seq<Record>, kept: seq<Record>, rest: seq<Record>)
    ensures records + (kept + rest) == (records + kept) + rest
    ensures |kept| == 0 ==> records + kept == records
  {
  }

  lemma {:induction false} CountStep(t: Tally, vs: seq<Verdict>, i: nat)
    requires i < |vs|
    ensures Count(t, vs[i..]) == Count(Add(t, vs[i]), vs[i + 1..])
  {
    assert vs[i..][1..] == vs[i + 1..];
  }

  /** What a preview reports. */
  function PreviewOf(vs: seq<Verdict>): Preview {
    var t := Count(ZERO, vs);
    CountSums(ZERO, vs);
    var sample := Sample(0, vs, PREVIEW_ROWS);
    Preview(t.total, t.total - t.bad, t.bad, t.duplicates, sample, t.total > |sample|)
  }

  /** What an import reports: a batch that rolled back fails all its records. */
  function ResultOf(t: Tally, committed: bool): ImportResult {
    if committed then ImportResult(t.total, t.accepted, t.bad, t.duplicates)
    else ImportResult(t.total, 0, t.bad + t.accepted, t.duplicates)
  }

  // ----- the background job -----

  datatype Job = Job(status: string, total: nat, success: nat, failed: nat, skipped: nat)

  /** countImportDataRows: the rows that are not blank. */
  function DataRows(rows: seq<Row>): nat {
    if rows == [] then 0 else (if IsEmptyRow(rows[0]) then 0 else 1) + DataRows(rows[1..])
  }

  method CountDataRows(rows: seq<Row>) returns (total: nat)
    ensures total == DataRows(rows)
  {
    total := 0;
    for i := 0 to |rows|
      invariant total + DataRows(rows[i..]) == DataRows(rows)
    {
      assert rows[i..][0] == rows[i] && rows[i..][1..] == rows[i + 1..];
      if !IsEmptyRow(rows[i]) { total := total + 1; }
    }
  }

  function QueueJob(rows: seq<Row>): Job { Job("queued", DataRows(rows), 0, 0, 0) }

  /** updateImportJob: an empty status and a zero total leave the column as it is. */
  function UpdateJob(job: Job, change: Job): Job {
    Job(if change.status != "" then change.status else job.status,
        if change.total > 0 then change.total else job.total,
        change.success, change.failed, change.skipped)
  }

  /** runImportJob: running, then the result. */
  function StartJob(job: Job): Job { UpdateJob(job, Job("running", 0, 0, 0, 0)) }

  function FinishJob(job: Job, r: ImportResult): Job {
    UpdateJob(job, Job(if r.failed > 0 then "failed" else "completed", r.total, r.success, r.failed, r.skipped))
  }

  class Importer {
    const store: Store

    constructor (store: Store)
      ensures this.store == store
    {
      this.store := store;
    }

    /** One row of PreviewRows: what is said of it, and the keys seen after it. */
    method PreviewOne(env: ImportEnv, db: DB, user: nat, rows: seq<Row>, i: nat, seen: Seen, ghost vs: seq<Verdict>,
                      ghost seens: seq<Seen>)
      returns (v: Verdict, next: Seen)
      requires Judged(env, db, user, true, rows, |rows|, vs, seens) && i < |rows| && seen == seens[i]
      ensures v == vs[i] && next == seens[i + 1]
    {
      var row := rows[i];
      assert vs[i] == Judge(env, db, user, true, rows[i], seens[i]);
      next := seen;
      if IsEmptyRow(row) {
        return Blank, seen;
      }
      var record := ParseRecord(env, row);
      match record {
        case Err(e) => v := Bad(e);
        case Ok(r) =>
          var key := KeyOf(env, r);
          if key in seen {
            v := Repeats(seen[key]);
          } else if HasDuplicate(env, db, user, r) {
            v := Stored;
          } else {
            v := Fresh;
            next := seen[key := i];
          }
      }
    }

    /** PreviewRows: judges every row, keeps a sample, writes nothing; vs names the verdicts. */
    method PreviewRows(env: ImportEnv, user: nat, rows: seq<Row>, ghost vs: seq<Verdict>, ghost seens: seq<Seen>)
      returns (p: Preview)
      requires Judged(env, store.Now(), user, true, rows, |rows|, vs, seens)
      ensures p == PreviewOf(vs)
    {
      var total, valid, failed, duplicates := 0, 0, 0, 0;
      var sample: seq<PreviewRow> := [];
      var seen: Seen := map[];
      var db := store.Now();
      for i := 0 to |rows|
        invariant seen == seens[i]
        invariant valid + failed == total && duplicates <= valid && |sample| <= PREVIEW_ROWS
        invariant Count(Tally(total, failed, duplicates, valid - duplicates), vs[i..]) == Count(ZERO, vs)
        invariant sample + Sample(i, vs[i..], PREVIEW_ROWS - |sample|) == Sample(0, vs, PREVIEW_ROWS)
      {
        assert vs[i..][1..] == vs[i + 1..];
        var v;
        v, seen := PreviewOne(env, db, user, rows, i, seen, vs, seens);
        if v.Blank? {
          continue;
        }
        total := total + 1;
        if v.Bad? {
          failed := failed + 1;
        } else {
          valid := valid + 1;
          if !v.Fresh? { duplicates := duplicates + 1; }
        }
        if |sample| < PREVIEW_ROWS {
          SampleStep(sample, i, vs[i..]);
          sample := sample + [PreviewRow(i + 2, v)];
        }
      }
      SampleBound(0, vs, PREVIEW_ROWS);
      p := Preview(total, valid, failed, duplicates, sample, total > |sample|);
    }

    /** One row of the import's first loop: what becomes of it, its record if it is kept, and the keys seen after it. */
    method ReadOne(env: ImportEnv, db: DB, user: nat, skip: bool, rows: seq<Row>, i: nat, seen: Seen,
                   ghost vs: seq<Verdict>, ghost seens: seq<Seen>, ghost later: int -> seq<Record>)
      returns (v: Verdict, kept: seq<Record>, next: Seen)
      requires Judged(env, db, user, skip, rows, |rows|, vs, seens) && i < |rows| && seen == seens[i]
      requires KeepsLater(later, env, rows, vs)
      ensures v == vs[i] && next == seens[i + 1]
      ensures later(i) == kept + later(i + 1) && |kept| == if v.Fresh? then 1 else 0
    {
      LaterStep(later, env, rows, vs, i);
      var row := rows[i];
      assert vs[i] == Judge(env, db, user, skip, rows[i], seens[i]);
      if IsEmptyRow(row) {
        return Blank, [], seen;
      }
      var record := ParseRecord(env, row);
      if record.Err? {
        return Bad(record.error), [], seen;
      }
      var key := KeyOf(env, record.value);
      if skip {
        if key in seen {
          return Repeats(seen[key]), [], seen;
        }
        if HasDuplicate(env, db, user, record.value) {
          return Stored, [], seen;
        }
      }
      return Fresh, [record.value], seen[key := i];
    }

    /** The first loop of ImportRowsWithOptions: counts, skips duplicates, collects the records. */
    method Collect(env: ImportEnv, user: nat, rows: seq<Row>, skip: bool, ghost vs: seq<Verdict>,
                   ghost seens: seq<Seen>, ghost later: int -> seq<Record>)
      returns (total: nat, failed: nat, skipped: nat, records: seq<Record>)
      requires Judged(env, store.Now(), user, skip, rows, |rows|, vs, seens)
      requires KeepsLater(later, env, rows, vs) && later(|rows|) == []
      ensures records == later(0)
      ensures Count(ZERO, vs) == Tally(total, failed, skipped, |records|)
    {
      ghost var tally := Count(ZERO, vs);
      total, failed, skipped, records := 0, 0, 0, [];
      var seen: Seen := map[];
      var db := store.Now();
      assert vs[0..] == vs;
      for i := 0 to |rows|
        invariant seen == seens[i]
        invariant Count(Tally(total, failed, skipped, |records|), vs[i..]) == tally
        invariant records + later(i) == later(0)
      {
        var v, kept;
        v, kept, seen := ReadOne(env, db, user, skip, rows, i, seen, vs, seens, later);
        CountStep(Tally(total, failed, skipped, |records|), vs, i);
        AppendKept(records, kept, later(i + 1));
        if v.Blank? {
          continue;
        }
        total := total + 1;
        if v.Bad? {
          failed := failed + 1;
        } else if !v.Fresh? {
          skipped := skipped + 1;
        }
        records := records + kept;
      }
    }

    /** Names of one record, inside the transaction. */
    method ResolveRecord(user: nat, r: Record) returns (req: Result<Request>)
      modifies store
      ensures var one := ResolveOne(user, r, old(store.Now()));
        && (one.Err? ==> req.Err?)
        && (one.Ok? ==> (req.Ok? <==> old(store.left) >= Inserted(old(store.Now()), one.value.db)))
        && (req.Ok? ==> one.value == Resolved(store.Now(), [req.value]))
        && (req.Ok? ==> store.left == old(store.left) - Inserted(old(store.Now()), store.Now()))
    {
      var category := store.FindOrCreateCategoryWithDB(user, r.kind, r.category);
      if category.Err? { return Err(category.error); }
      var account := store.FindOrCreateAccountWithDB(user, r.account);
      if account.Err? { return Err(account.error); }
      req := Ok(RequestOf(r, category.value, account.value));
    }

    /** The transaction of the import: resolve names, then create all transactions. */
    method WriteBatch(env: ImportEnv, user: nat, records: seq<Record>) returns (ok: bool)
      modifies store
      ensures ok <==>
        && Batch(env, user, records, old(store.Now())).Ok?
        && old(store.left) >= Writes(user, records, old(store.Now()))
      ensures store.Now() == if ok then Batch(env, user, records, old(store.Now())).value else old(store.Now())
    {
      var saved := store.Now();
      var reqs: seq<Request> := [];
      ghost var whole := Resolve(user, records, saved);
      for i := 0 to |records|
        invariant store.left + Inserted(saved, store.Now()) == old(store.left)
        invariant |reqs| == i
        invariant Prefixes(reqs, Resolve(user, records[i..], store.Now()), whole)
      {
        assert records[i..][0] == records[i] && records[i..][1..] == records[i + 1..];
        PrefixStep(user, records[i..], store.Now(), reqs, whole, saved);
        var req := ResolveRecord(user, records[i]);
        if req.Err? {
          store.Rollback(saved);
          return false;
        }
        reqs := reqs + [req.value];
      }
      assert records[|records|..] == [];
      assert whole == Ok(Resolved(store.Now(), reqs)) by { assert reqs + [] == reqs; }
      var created := store.CreateManyWithDB(env.ledger, user, reqs);
      ok := created.Ok?;
      if !ok {
        store.Rollback(saved);
      }
    }

    /** ImportRowsWithOptions; vs names the verdicts. */
    method ImportRows(env: ImportEnv, user: nat, rows: seq<Row>, skip: bool, ghost vs: seq<Verdict>,
                      ghost seens: seq<Seen>)
      returns (result: ImportResult, committed: bool)
      requires Judged(env, store.Now(), user, skip, rows, |rows|, vs, seens)
      modifies store
      ensures result == ResultOf(Count(ZERO, vs), committed)
      ensures var db := old(store.Now());
        var recs := FreshRecords(env, rows, 0, vs);
        && (committed <==> recs == [] || (Batch(env, user, recs, db).Ok? && old(store.left) >= Writes(user, recs, db)))
        && store.Now() == if committed && recs != [] then Batch(env, user, recs, db).value else db
    {
      ghost var later := LaterRecords(env, rows, vs);
      var total, failed, skipped, records := Collect(env, user, rows, skip, vs, seens, later);
      if records == [] {
        return ImportResult(total, 0, failed, skipped), true;
      }
      committed := WriteBatch(env, user, records);
      result := if committed then ImportResult(total, |records|, failed, skipped)
                else ImportResult(total, 0, failed + |records|, skipped);
    }
  }

  /** Resolving the rest after reqs resolves the whole. */
  ghost predicate Prefixes(reqs: seq<Request>, rest: Result<Resolved>, whole: Result<Resolved>) {
    rest.Ok? == whole.Ok? && (rest.Ok? ==> whole.value == Resolved(rest.value.db, reqs + rest.value.reqs))
  }

  /** One record resolved: the rest still resolves the whole, which needs at least the rows inserted so far. */
  lemma {:induction false} PrefixStep(user: nat, recs: seq<Record>, here: DB, reqs: seq<Request>,
                                      whole: Result<Resolved>, saved: DB)
    requires recs != [] && Prefixes(reqs, Resolve(user, recs, here), whole)
    ensures var one := ResolveOne(user, recs[0], here);
      && (one.Err? ==> whole.Err?)
      && (one.Ok? ==> Prefixes(reqs + one.value.reqs, Resolve(user, recs[1..], one.value.db), whole))
      && (one.Ok? && whole.Ok? ==>
            Inserted(saved, whole.value.db) >= Inserted(saved, here) + Inserted(here, one.value.db))
  {
    var one := ResolveOne(user, recs[0], here);
    if one.Ok? {
      var rest := Resolve(user, recs[1..], one.value.db);
      if rest.Ok? {
        ResolveGrows(user, recs[1..], one.value.db);
        assert reqs + (one.value.reqs + rest.value.reqs) == (reqs + one.value.reqs) + rest.value.reqs;
      }
    }
  }
}
