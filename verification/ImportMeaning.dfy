/** What an import makes of a file, said of the cells of its rows and of the ledger's rows: which rows
    become records, which of them are skipped and why, and what the kept ones are stored as. */
module ImportMeaning {
  import opened Common
  import opened Text
  import opened Ledger
  import opened LedgerMeaning
  import opened Import
  import opened ImportTheorems

  // ----- records -----

  /** A cell without surrounding space; missing ones are empty. */
  function Cell(row: Row, i: nat): string { if i < |row| then Trim(row[i]) else "" }

  function RecordRules(env: ImportEnv, row: Row): seq<Rule> {
    [Rule(env.parseTime(Cell(row, 0)).Some?, "invalid occurred_at"),
     Rule(OfKind(env.ledger.lower(Cell(row, 1))), "invalid type"),
     Rule(env.parseCents(Cell(row, 2)).Some? && env.parseCents(Cell(row, 2)).value > 0, "invalid amount")]
  }

  /** A row is a record when its first three cells are a time, a type and a positive amount; the others
      may be empty, category and account then having default names. */
  lemma {:induction false} RecordMeans(env: ImportEnv, row: Row)
    ensures Obeys(RecordRules(env, row), ParseRecord(env, row))
    ensures ParseRecord(env, row).Ok? ==>
      && env.parseTime(Cell(row, 0)).Some? && env.parseCents(Cell(row, 2)).Some?
      && ParseRecord(env, row).value == Record(
           env.parseTime(Cell(row, 0)).value, env.ledger.lower(Cell(row, 1)),
           env.fromCents(env.parseCents(Cell(row, 2)).value), Given(Cell(row, 3), "\U{9910}\U{996E}"),
           Given(Cell(row, 4), "\U{73B0}\U{91D1}"), Cell(row, 5), Cell(row, 6))
  {
    var rules := RecordRules(env, row);
    GivenName(Cell(row, 3), "\U{9910}\U{996E}");
    GivenName(Cell(row, 4), "\U{73B0}\U{91D1}");
    if ParseRecord(env, row).Err? {
      ReportsAt(rules, if !rules[0].kept then 0 else if !rules[1].kept then 1 else 2);
    }
  }

  lemma {:induction false} BlankJoin(a: string, b: string)
    ensures Text.Blank(a + b) <==> Text.Blank(a) && Text.Blank(b)
  {
    if Text.Blank(a + b) {
      assert forall k :: 0 <= k < |a| ==> a[k] == (a + b)[k];
      assert forall k :: 0 <= k < |b| ==> b[k] == (a + b)[|a| + k];
    }
  }

  lemma {:induction false} JoinBlank(row: Row)
    ensures Text.Blank(Join(row, "")) <==> forall i :: 0 <= i < |row| ==> Text.Blank(row[i])
  {
    if |row| > 1 {
      var rest := row[1..];
      JoinBlank(rest);
      assert Join(row, "") == row[0] + Join(rest, "");
      BlankJoin(row[0], Join(rest, ""));
      assert forall i :: 0 < i < |row| ==> row[i] == rest[i - 1];
      assert forall i :: 0 <= i < |rest| ==> rest[i] == row[i + 1];
    }
  }

  /** A row counts unless every cell of it is blank. */
  lemma {:induction false} EmptyRowMeans(row: Row)
    ensures IsEmptyRow(row) <==> forall i :: 0 <= i < |row| ==> Text.Blank(row[i])
  {
    JoinBlank(row);
    TrimBlank(Join(row, ""));
  }

  // ----- tags -----

  lemma {:induction false} SplitJoined(a: string, b: string)
    ensures SplitOn(a + ("," + b), ',') == SplitOn(a, ',') + SplitOn(b, ',')
  {
    var s := a + ("," + b);
    if a == "" {
      assert s[1..] == b && s[0] == ',';
    } else {
      assert s[1..] == a[1..] + ("," + b);
      SplitJoined(a[1..], b);
    }
  }

  lemma {:induction false} SplitWhole(s: string)
    requires forall k :: 0 <= k < |s| ==> s[k] != ','
    ensures SplitOn(s, ',') == [s]
  {
    if s != "" {
      assert forall k :: 0 <= k < |s| - 1 ==> s[1..][k] == s[k + 1];
      SplitWhole(s[1..]);
      assert [s[0]] + s[1..] == s;
    }
  }

  lemma {:induction false} KeepJoined(a: seq<string>, b: seq<string>)
    ensures KeepTags(a + b) == KeepTags(a) + KeepTags(b)
  {
    if a == [] {
      assert a + b == b;
    } else {
      assert (a + b)[1..] == a[1..] + b;
      KeepJoined(a[1..], b);
    }
  }

  lemma {:induction false} BlankTags(s: string)
    requires Text.Blank(s)
    ensures KeepTags(SplitOn(s, ',')) == []
  {
    SplitWhole(s);
    TrimBlank(s);
    assert [s][1..] == [];
  }

  lemma {:induction false} TagsSplit(s: string)
    ensures Tags(s) == KeepTags(SplitOn(s, ','))
  {
    TrimBlank(s);
    if Text.Blank(s) { BlankTags(s); }
  }

  /** The tags before a comma, then those after it. */
  lemma {:induction false} TagsJoined(a: string, b: string)
    ensures Tags(a + ("," + b)) == Tags(a) + Tags(b)
  {
    TagsSplit(a);
    TagsSplit(b);
    TagsSplit(a + ("," + b));
    SplitJoined(a, b);
    KeepJoined(SplitOn(a, ','), SplitOn(b, ','));
  }

  /** Without a comma a text is one tag, less the space around it, or none. */
  lemma {:induction false} TagsSingle(s: string)
    requires forall k :: 0 <= k < |s| ==> s[k] != ','
    ensures Tags(s) == if Text.Blank(s) then [] else [Trim(s)]
  {
    TagsSplit(s);
    SplitWhole(s);
    TrimBlank(s);
    assert [s][1..] == [] && KeepTags([]) == [];
  }

  // ----- the ledger's duplicate -----

  /** The ledger has the record: a transaction of the user with the same time, type, cents, note and
      tags, in the category and on the account that the record's names find. */
  ghost predicate InLedger(env: ImportEnv, db: DB, user: nat, r: Record) {
    exists id :: id in db.txs && IsRecordRow(env, db, user, r, db.txs[id])
  }

  ghost predicate IsRecordRow(env: ImportEnv, db: DB, user: nat, r: Record, t: Tx) {
    && t.owner == user && t.occurredAt == r.occurredAt && t.kind == r.kind && t.cents == env.toCents(r.amount)
    && t.note == Trim(r.note) && t.tags == Join(Tags(r.tags), ",")
    && FindsCategory(db, user, r.kind, r.category, t.category)
    && FindsAccount(db, user, r.account, t.account)
  }

  lemma {:induction false} FindsOne(db: DB, user: nat, kind: string, name: string, i: nat, j: nat)
    requires FindsCategory(db, user, kind, name, i) && FindsCategory(db, user, kind, name, j)
    ensures i == j
  {
  }

  lemma {:induction false} FindsOneAccount(db: DB, user: nat, name: string, i: nat, j: nat)
    requires FindsAccount(db, user, name, i) && FindsAccount(db, user, name, j)
    ensures i == j
  {
  }

  lemma {:induction false} DuplicateMeans(env: ImportEnv, db: DB, user: nat, r: Record)
    requires KeysBounded(db)
    ensures HasDuplicate(env, db, user, r) <==> InLedger(env, db, user, r)
  {
    FindCategoryMeans(db, user, r.kind, r.category);
    FindAccountMeans(db, user, r.account);
    var c, a := FindCategory(db, user, r.kind, r.category), FindAccount(db, user, r.account);
    if HasDuplicate(env, db, user, r) {
      var id :| id in db.txs && Matches(env, db.txs[id], user, r, c.value, a.value);
      assert IsRecordRow(env, db, user, r, db.txs[id]);
    }
    if InLedger(env, db, user, r) {
      var id :| id in db.txs && IsRecordRow(env, db, user, r, db.txs[id]);
      FindsOne(db, user, r.kind, r.category, c.value, db.txs[id].category);
      FindsOneAccount(db, user, r.account, a.value, db.txs[id].account);
      assert Matches(env, db.txs[id], user, r, c.value, a.value);
    }
  }

  // ----- verdicts -----

  /** What becomes of row k when duplicates are skipped. */
  lemma {:induction false} VerdictMeans(env: ImportEnv, db: DB, user: nat, rows: seq<Row>, vs: seq<Verdict>,
                                        seens: seq<Seen>, k: nat)
    requires Judged(env, db, user, true, rows, |rows|, vs, seens) && k < |rows| && KeysBounded(db)
    ensures vs[k].Blank? <==> forall i :: 0 <= i < |rows[k]| ==> Text.Blank(rows[k][i])
    ensures vs[k].Bad? <==> !vs[k].Blank? && !AllKept(RecordRules(env, rows[k]))
    ensures vs[k].Bad? ==> Reports(RecordRules(env, rows[k]), vs[k].why)
    ensures !vs[k].Blank? && !vs[k].Bad? ==>
      && ParseRecord(env, rows[k]).Ok?
      && (!vs[k].Repeats? ==>
            vs[k] == if InLedger(env, db, user, ParseRecord(env, rows[k]).value) then Stored else Fresh)
  {
    EmptyRowMeans(rows[k]);
    RecordMeans(env, rows[k]);
    assert vs[k] == Judge(env, db, user, true, rows[k], seens[k]);
    if ParseRecord(env, rows[k]).Ok? { DuplicateMeans(env, db, user, ParseRecord(env, rows[k]).value); }
  }

  /** When duplicates are not skipped every record is kept. */
  lemma {:induction false} UnskippedMeans(env: ImportEnv, db: DB, user: nat, rows: seq<Row>, vs: seq<Verdict>,
                                          seens: seq<Seen>, k: nat)
    requires Judged(env, db, user, false, rows, |rows|, vs, seens) && k < |rows|
    ensures vs[k].Blank? <==> forall i :: 0 <= i < |rows[k]| ==> Text.Blank(rows[k][i])
    ensures vs[k].Fresh? <==> !vs[k].Blank? && AllKept(RecordRules(env, rows[k]))
    ensures vs[k].Blank? || vs[k].Bad? || vs[k].Fresh?
  {
    EmptyRowMeans(rows[k]);
    RecordMeans(env, rows[k]);
    assert vs[k] == Judge(env, db, user, false, rows[k], seens[k]);
  }

  // ----- totals and the sample -----

  function Counts(): Verdict -> bool { (v: Verdict) => !v.Blank? }

  function Fails(): Verdict -> bool { (v: Verdict) => v.Bad? }

  function Duplicates(): Verdict -> bool { (v: Verdict) => v.Repeats? || v.Stored? }

  function Keeps(): Verdict -> bool { (v: Verdict) => v.Fresh? }

  function Number(vs: seq<Verdict>, p: Verdict -> bool): nat {
    if vs == [] then 0 else Number(vs[..|vs| - 1], p) + if p(vs[|vs| - 1]) then 1 else 0
  }

  lemma {:induction false} CountNext(t: Tally, vs: seq<Verdict>, v: Verdict)
    ensures Count(t, vs + [v]) == Add(Count(t, vs), v)
    decreases |vs|
  {
    if vs == [] {
      assert [v][1..] == [];
    } else {
      assert (vs + [v])[1..] == vs[1..] + [v];
      CountNext(Add(t, vs[0]), vs[1..], v);
    }
  }

  /** The totals count the rows that are not blank, the bad ones, the duplicates and the others. */
  lemma {:induction false} CountMeans(vs: seq<Verdict>)
    ensures Count(ZERO, vs) == Tally(Number(vs, Counts()), Number(vs, Fails()),
      Number(vs, Duplicates()), Number(vs, Keeps()))
  {
    if vs != [] {
      var init, last := vs[..|vs| - 1], vs[|vs| - 1];
      CountMeans(init);
      CountNext(ZERO, init, last);
      assert init + [last] == vs;
    }
  }

  /** What an import reports: what was stored, or that nothing was, all records then having failed. */
  lemma {:induction false} ResultMeans(vs: seq<Verdict>, committed: bool)
    ensures var r, kept, bad := ResultOf(Count(ZERO, vs), committed), Number(vs, Keeps()), Number(vs, Fails());
      && r.total == Number(vs, Counts()) && r.skipped == Number(vs, Duplicates())
      && r.success == (if committed then kept else 0) && r.failed == (if committed then bad else bad + kept)
  {
    CountMeans(vs);
  }

  lemma {:induction false} NumberCons(vs: seq<Verdict>, p: Verdict -> bool)
    requires vs != []
    ensures Number(vs, p) == (if p(vs[0]) then 1 else 0) + Number(vs[1..], p)
  {
    if |vs| > 1 {
      NumberCons(vs[..|vs| - 1], p);
      assert vs[..|vs| - 1][1..] == vs[1..][..|vs| - 2];
    }
  }

  /** Entry n of a sample is the row with n rows before it that are not blank. */
  lemma {:induction false} SampleRows(i: nat, vs: seq<Verdict>, room: nat)
    ensures var all := Number(vs, Counts());
      |Sample(i, vs, room)| == if all < room then all else room
    ensures forall k :: 0 <= k < |vs| && !vs[k].Blank? && Number(vs[..k], Counts()) < room ==>
      && Number(vs[..k], Counts()) < |Sample(i, vs, room)|
      && Sample(i, vs, room)[Number(vs[..k], Counts())] == PreviewRow(i + k + 2, vs[k])
    decreases |vs|
  {
    var p := Counts();
    if vs != [] && room > 0 {
      var rest, left := vs[1..], if vs[0].Blank? then room else room - 1;
      SampleRows(i + 1, rest, left);
      NumberCons(vs, p);
      forall k | 0 < k < |vs| ensures Number(vs[..k], p) == (if p(vs[0]) then 1 else 0) + Number(rest[..k - 1], p) {
        NumberCons(vs[..k], p);
        assert vs[..k][1..] == rest[..k - 1];
      }
    }
  }

  /** A preview shows the first twenty rows that are not blank, by their lines in the file, and says
      whether there are more. */
  lemma {:induction false} PreviewMeans(vs: seq<Verdict>, k: nat)
    requires k < |vs|
    ensures var p, before, all := PreviewOf(vs), Number(vs[..k], Counts()), Number(vs, Counts());
      && |p.sample| == (if all < 20 then all else 20) && (p.truncated <==> all > 20) && p.total == all
      && p.failed == Number(vs, Fails()) && p.valid == all - p.failed
      && p.duplicates == Number(vs, Duplicates())
      && (!vs[k].Blank? && before < 20 ==> before < |p.sample| && p.sample[before] == PreviewRow(k + 2, vs[k]))
  {
    SampleRows(0, vs, 20);
    CountMeans(vs);
  }

  // ----- what is stored -----

  /** The rows of the fresh verdicts, in order; row i has the first verdict. */
  function FreshRows(vs: seq<Verdict>, i: nat): seq<nat> {
    if vs == [] then [] else (if vs[0].Fresh? then [i] else []) + FreshRows(vs[1..], i + 1)
  }

  predicate IsFreshRow(vs: seq<Verdict>, i: nat, k: nat) { i <= k < i + |vs| && vs[k - i].Fresh? }

  lemma {:induction false} FreshRowsAre(vs: seq<Verdict>, i: nat)
    ensures forall a, b :: 0 <= a < b < |FreshRows(vs, i)| ==> FreshRows(vs, i)[a] < FreshRows(vs, i)[b]
    ensures forall k: nat :: k in FreshRows(vs, i) <==> IsFreshRow(vs, i, k)
  {
    if vs != [] {
      var rest := vs[1..];
      var more := FreshRows(rest, i + 1);
      FreshRowsAre(rest, i + 1);
      forall a | 0 <= a < |more| ensures i < more[a] {
        assert more[a] in more;
        assert IsFreshRow(rest, i + 1, more[a]);
      }
      forall k: nat ensures k in FreshRows(vs, i) <==> IsFreshRow(vs, i, k) {
        assert k in more <==> IsFreshRow(rest, i + 1, k);
        if i < k < i + |vs| { assert rest[k - (i + 1)] == vs[k - i]; }
      }
    }
  }

  /** Every fresh row has a record. */
  ghost predicate Parsed(env: ImportEnv, rows: seq<Row>, vs: seq<Verdict>, i: nat) {
    i + |vs| == |rows| && forall k :: 0 <= k < |vs| && vs[k].Fresh? ==> ParseRecord(env, rows[i + k]).Ok?
  }

  ghost predicate RecordAt(env: ImportEnv, rows: seq<Row>, ks: seq<nat>, recs: seq<Record>, a: nat) {
    a < |ks| && a < |recs| && ks[a] < |rows| && ParseRecord(env, rows[ks[a]]) == Ok(recs[a])
  }

  lemma {:induction false} ParsedTail(env: ImportEnv, rows: seq<Row>, vs: seq<Verdict>, i: nat)
    requires Parsed(env, rows, vs, i) && vs != []
    ensures Parsed(env, rows, vs[1..], i + 1)
    ensures KeptRecord(env, rows[i], vs[0]) == if vs[0].Fresh? then [ParseRecord(env, rows[i]).value] else []
    ensures vs[0].Fresh? ==> ParseRecord(env, rows[i]).Ok?
  {
    assert forall k :: 0 <= k < |vs| - 1 ==> vs[1..][k] == vs[k + 1] && rows[i + 1 + k] == rows[i + (k + 1)];
    assert vs[0].Fresh? ==> ParseRecord(env, rows[i + 0]).Ok?;
  }

  lemma {:induction false} ConsAt(env: ImportEnv, rows: seq<Row>, i: nat, r: Record, ks: seq<nat>, recs: seq<Record>,
                                  a: nat)
    requires i < |rows| && ParseRecord(env, rows[i]) == Ok(r) && |ks| == |recs|
    requires 0 < a <= |ks| ==> RecordAt(env, rows, ks, recs, a - 1)
    ensures a <= |ks| ==> RecordAt(env, rows, [i] + ks, [r] + recs, a)
  {
  }

  lemma {:induction false} FreshUnfolds(env: ImportEnv, rows: seq<Row>, vs: seq<Verdict>, i: nat)
    requires Parsed(env, rows, vs, i) && vs != []
    ensures var ks, recs := FreshRows(vs[1..], i + 1), FreshRecords(env, rows, i + 1, vs[1..]);
      if vs[0].Fresh?
      then FreshRows(vs, i) == [i] + ks && FreshRecords(env, rows, i, vs) == [ParseRecord(env, rows[i]).value] + recs
      else FreshRows(vs, i) == ks && FreshRecords(env, rows, i, vs) == recs
  {
    ParsedTail(env, rows, vs, i);
  }

  /** The records that are kept are those of the fresh rows, in the order of the file. */
  lemma {:induction false} KeptRecords(env: ImportEnv, rows: seq<Row>, vs: seq<Verdict>, i: nat, a: nat)
    requires Parsed(env, rows, vs, i)
    ensures |FreshRecords(env, rows, i, vs)| == |FreshRows(vs, i)|
    ensures a < |FreshRows(vs, i)| ==> RecordAt(env, rows, FreshRows(vs, i), FreshRecords(env, rows, i, vs), a)
    decreases |vs|
  {
    if vs != [] {
      var rest := vs[1..];
      var ks, recs := FreshRows(rest, i + 1), FreshRecords(env, rows, i + 1, rest);
      ParsedTail(env, rows, vs, i);
      FreshUnfolds(env, rows, vs, i);
      if vs[0].Fresh? {
        KeptRecords(env, rows, rest, i + 1, if a > 0 then a - 1 else 0);
        ConsAt(env, rows, i, ParseRecord(env, rows[i]).value, ks, recs, a);
      } else {
        KeptRecords(env, rows, rest, i + 1, a);
      }
    }
  }

  /** A row of the ledger that an import makes of a record. */
  ghost predicate StoresRecord(env: ImportEnv, db: DB, user: nat, r: Record, t: Tx) {
    && t.owner == user && t.kind == r.kind && env.ledger.exact(r.amount) == Some(t.cents)
    && t.occurredAt == (if r.occurredAt == 0 then env.ledger.now else r.occurredAt)
    && t.note == Trim(r.note) && t.tags == Join(Tags(r.tags), ",") && t.source == "import"
    && FindsCategory(db, user, r.kind, r.category, t.category) && FindsAccount(db, user, r.account, t.account)
  }

  lemma {:induction false} RowStores(env: ImportEnv, user: nat, r: Record, req: Request, last: DB, t: Tx)
    requires KeysBounded(last) && Resolves(last, user, r, req) && StoredAs(env.ledger, user, req, t)
    ensures StoresRecord(env, last, user, r, t)
  {
    FindCategoryMeans(last, user, r.kind, r.category);
    FindAccountMeans(last, user, r.account);
    NewTxHolds(env.ledger, user, req, env.ledger.exact(req.amount).value);
    TrimBlank("import");
    TrimTrims("import");
  }

  /** A batch stores every record in turn, under the next keys, and leaves all other rows. */
  lemma {:induction false} BatchMeans(env: ImportEnv, user: nat, recs: seq<Record>, db: DB, last: DB, k: nat)
    requires KeysBounded(db) && Batch(env, user, recs, db) == Ok(last) && k < |recs|
    ensures db.nextTx + k in last.txs && StoresRecord(env, last, user, recs[k], last.txs[db.nextTx + k])
    ensures last.nextTx == db.nextTx + |recs|
    ensures forall id :: id in db.txs ==> id in last.txs && last.txs[id] == db.txs[id]
  {
    BatchCommitted(env, user, recs, db);
    var reqs := Resolve(user, recs, db).value.reqs;
    RecordRow(env, user, recs, db, last, reqs, k);
    RowStores(env, user, recs[k], reqs[k], last, last.txs[db.nextTx + k]);
  }

  // ----- when a batch succeeds -----

  /** A record that the ledger takes: what is left to go wrong with it. */
  predicate Acceptable(env: ImportEnv, r: Record) {
    && OfKind(env.ledger.lower(Trim(r.kind))) && !Text.Blank(r.category) && r.amount > 0.0
    && env.ledger.exact(r.amount).Some? && env.ledger.exact(r.amount).value > 0
  }

  /** Ids start at 1. */
  predicate IdsFromOne(db: DB) {
    0 !in db.categories && 0 !in db.accounts && db.nextCategory >= 1 && db.nextAccount >= 1
  }

  lemma {:induction false} ResolveSucceeds(user: nat, recs: seq<Record>, db: DB)
    ensures Resolve(user, recs, db).Ok? <==> forall k :: 0 <= k < |recs| ==> !Text.Blank(recs[k].category)
  {
    if recs != [] {
      TrimBlank(recs[0].category);
      var one := ResolveOne(user, recs[0], db);
      if one.Ok? { ResolveSucceeds(user, recs[1..], one.value.db); }
      assert forall k :: 0 < k < |recs| ==> recs[1..][k - 1] == recs[k];
    }
  }

  lemma {:induction false} RequestSucceeds(env: ImportEnv, user: nat, r: Record, req: Request, db: DB)
    requires Resolves(db, user, r, req) && IdsFromOne(db) && !Text.Blank(r.category)
    ensures CreateTx(env.ledger, user, req, db).Ok? <==> Acceptable(env, r)
  {
    FoundNames(db, user, r);
  }

  lemma {:induction false} RequestsSucceed(env: ImportEnv, user: nat, recs: seq<Record>, reqs: seq<Request>, db: DB)
    requires KeysBounded(db) && IdsFromOne(db) && AllResolved(db, user, recs, reqs)
    requires forall k :: 0 <= k < |recs| ==> !Text.Blank(recs[k].category)
    ensures CreateTxs(env.ledger, user, reqs, db).Ok? <==> forall k :: 0 <= k < |recs| ==> Acceptable(env, recs[k])
  {
    if recs != [] {
      assert ResolvedRow(db, user, recs, reqs, 0);
      RequestSucceeds(env, user, recs[0], reqs[0], db);
      var one := CreateTx(env.ledger, user, reqs[0], db);
      assert forall k :: 0 < k < |recs| ==> recs[1..][k - 1] == recs[k];
      if one.Ok? {
        RestResolved(env, user, recs, reqs, db, one.value);
        RequestsSucceed(env, user, recs[1..], reqs[1..], one.value);
      }
    }
  }

  lemma {:induction false} RestResolved(env: ImportEnv, user: nat, recs: seq<Record>, reqs: seq<Request>, db: DB,
                                        next: DB)
    requires KeysBounded(db) && IdsFromOne(db) && AllResolved(db, user, recs, reqs) && recs != []
    requires CreateTx(env.ledger, user, reqs[0], db) == Ok(next)
    ensures KeysBounded(next) && IdsFromOne(next) && AllResolved(next, user, recs[1..], reqs[1..])
  {
    CreateStores(env.ledger, user, reqs[0], db);
    SameOwnersExtends(db, next, user);
    AllResolvedLater(db, next, user, recs, reqs);
    forall k | 0 <= k < |recs| - 1 ensures ResolvedRow(next, user, recs[1..], reqs[1..], k) {
      assert ResolvedRow(next, user, recs, reqs, k + 1);
    }
  }

  /** A batch succeeds exactly when each of its records alone is acceptable: names are found or made,
      notes may be empty, and only a type, a blank category or an amount can refuse it. */
  lemma {:induction false} BatchSucceeds(env: ImportEnv, user: nat, recs: seq<Record>, db: DB)
    requires KeysBounded(db) && IdsFromOne(db)
    ensures Batch(env, user, recs, db).Ok? <==> forall k :: 0 <= k < |recs| ==>
      && OfKind(env.ledger.lower(Trim(recs[k].kind))) && !Text.Blank(recs[k].category) && recs[k].amount > 0.0
      && env.ledger.exact(recs[k].amount).Some? && env.ledger.exact(recs[k].amount).value > 0
  {
    ResolveSucceeds(user, recs, db);
    if Resolve(user, recs, db).Ok? {
      ResolveMeans(user, recs, db);
      var all := Resolve(user, recs, db).value;
      assert IdsFromOne(all.db);
      RequestsSucceed(env, user, recs, all.reqs, all.db);
    }
    assert forall k :: 0 <= k < |recs| ==> (Acceptable(env, recs[k]) ==> !Text.Blank(recs[k].category));
  }

  // ----- jobs -----

  /** A job waits with the number of rows that count, runs with that number and nothing done, and ends with
      the figures of its run; a run that counted none leaves the number. */
  lemma {:induction false} JobStates(rows: seq<Row>, r: ImportResult)
    ensures var queued := QueueJob(rows);
      && queued.status == "queued" && queued.success == queued.failed == queued.skipped == 0
      && StartJob(queued) == Job("running", queued.total, 0, 0, 0)
      && FinishJob(StartJob(queued), r) == Job(if r.failed == 0 then "completed" else "failed",
                                               if r.total == 0 then queued.total else r.total,
                                               r.success, r.failed, r.skipped)
  {
  }

  /** A change without a status and without a total keeps both. */
  lemma {:induction false} JobKeeps(job: Job, success: nat, failed: nat, skipped: nat)
    ensures UpdateJob(job, Job("", 0, success, failed, skipped)) == Job(job.status, job.total, success, failed, skipped)
  {
  }

  predicate Filled(row: Row) { exists i :: 0 <= i < |row| && !Text.Blank(row[i]) }

  function Shifted(ks: seq<nat>): seq<nat> { seq(|ks|, j requires 0 <= j < |ks| => ks[j] + 1) }

  lemma {:induction false} ShiftedHas(ks: seq<nat>, k: nat)
    ensures k in Shifted(ks) <==> k > 0 && k - 1 in ks
  {
    if k > 0 && k - 1 in ks {
      var j :| 0 <= j < |ks| && ks[j] == k - 1;
      assert Shifted(ks)[j] == k;
    }
  }

  /** The rows that count are those with a cell that is not blank. */
  lemma {:induction false} DataRowsAre(rows: seq<Row>) returns (ks: seq<nat>)
    ensures |ks| == DataRows(rows) && forall a, b :: 0 <= a < b < |ks| ==> ks[a] < ks[b]
    ensures forall k: nat :: k in ks <==> k < |rows| && Filled(rows[k])
    decreases |rows|
  {
    ks := [];
    if rows != [] {
      var rest := DataRowsAre(rows[1..]);
      EmptyRowMeans(rows[0]);
      var here := if IsEmptyRow(rows[0]) then [] else [0];
      ks := here + Shifted(rest);
      forall k: nat ensures k in ks <==> k < |rows| && Filled(rows[k]) {
        ShiftedHas(rest, k);
        assert k > 0 ==> (k - 1 in rest <==> k - 1 < |rows| - 1 && Filled(rows[1..][k - 1]));
      }
    }
  }
}
