/** Preview against import, and importing the same rows twice. */
module ImportTheorems {
  import opened Common
  import opened Text
  import opened Ledger
  import opened LedgerIntegrity
  import opened Import

  // ----- preview and import judge alike -----

  /** Verdicts are determined by the ledger and the rows, so preview and import give every row the same one. */
  lemma {:induction false} VerdictsUnique(env: ImportEnv, db: DB, user: nat, skip: bool, rows: seq<Row>,
                       vs: seq<Verdict>, seens: seq<Seen>, us: seq<Verdict>, seensU: seq<Seen>)
    requires Judged(env, db, user, skip, rows, |rows|, vs, seens)
      && Judged(env, db, user, skip, rows, |rows|, us, seensU)
    ensures vs == us
  {
    for k := 0 to |rows|
      invariant vs[..k] == us[..k] && seens[k] == seensU[k]
    {
      assert vs[k] == Judge(env, db, user, skip, rows[k], seens[k]);
      assert us[k] == Judge(env, db, user, skip, rows[k], seensU[k]);
    }
  }

  /** The totals agree, and the outcomes always add up, also when the batch rolled back. */
  lemma {:induction false} PreviewAgrees(vs: seq<Verdict>, committed: bool)
    ensures var p := PreviewOf(vs);
      var r := ResultOf(Count(ZERO, vs), committed);
      && r.total == p.total && r.skipped == p.duplicates && p.total == p.valid + p.failed
      && (committed ==> r.failed == p.failed && r.success == p.valid - p.duplicates)
      && (!committed ==> r.success == 0)
      && r.total == r.success + r.failed + r.skipped
  {
    CountSums(ZERO, vs);
  }

  /** The record of row k, if the row has one. */
  predicate IsRecord(env: ImportEnv, rows: seq<Row>, k: nat, r: Record) {
    k < |rows| && !IsEmptyRow(rows[k]) && ParseRecord(env, rows[k]) == Ok(r)
  }

  /** The key of a row that has a record. */
  function RowKey(env: ImportEnv, row: Row): Option<Key> {
    if !IsEmptyRow(row) && ParseRecord(env, row).Ok? then Some(KeyOf(env, ParseRecord(env, row).value)) else None
  }

  ghost predicate KeysAre(env: ImportEnv, rows: seq<Row>, keys: seq<Option<Key>>) {
    |keys| == |rows| && forall k {:trigger RowKey(env, rows[k])} :: 0 <= k < |rows| ==> keys[k] == RowKey(env, rows[k])
  }

  /** One verdict in terms of the row's key. */
  lemma {:induction false} JudgeKey(env: ImportEnv, db: DB, user: nat, row: Row, seen: Seen, i: nat)
    ensures var v := Judge(env, db, user, true, row, seen);
      var key := RowKey(env, row);
      && (v.Fresh? ==> key.Some? && key.value !in seen && See(env, row, i, v, seen) == seen[key.value := i])
      && (!v.Fresh? ==> See(env, row, i, v, seen) == seen)
      && (v.Repeats? <==> key.Some? && key.value in seen)
      && (v.Repeats? ==> v.first == seen[key.value])
  {
  }

  /** The seen keys before row k are those of the fresh rows before it. */
  predicate SeenAre(keys: seq<Option<Key>>, vs: seq<Verdict>, seen: Seen, k: nat)
    requires k <= |vs| == |keys|
  {
    && (forall j | 0 <= j < k && vs[j].Fresh? :: keys[j].Some? && keys[j].value in seen && seen[keys[j].value] == j)
    && (forall key | key in seen :: seen[key] < k && vs[seen[key]].Fresh? && keys[seen[key]] == Some(key))
  }

  lemma {:induction false} SeenUpTo(env: ImportEnv, db: DB, user: nat, rows: seq<Row>, vs: seq<Verdict>,
                                    seens: seq<Seen>, keys: seq<Option<Key>>, k: nat)
    requires Judged(env, db, user, true, rows, |rows|, vs, seens) && KeysAre(env, rows, keys) && k <= |rows|
    ensures SeenAre(keys, vs, seens[k], k)
  {
    if k > 0 {
      SeenUpTo(env, db, user, rows, vs, seens, keys, k - 1);
      SeenRow(env, db, user, rows, vs, seens, keys, k - 1);
    }
  }

  /** Row k by its key. */
  lemma {:induction false} SeenRow(env: ImportEnv, db: DB, user: nat, rows: seq<Row>, vs: seq<Verdict>,
                                   seens: seq<Seen>, keys: seq<Option<Key>>, k: nat)
    requires Judged(env, db, user, true, rows, |rows|, vs, seens) && KeysAre(env, rows, keys) && k < |rows|
    ensures vs[k].Fresh? ==> keys[k].Some? && keys[k].value !in seens[k] && seens[k + 1] == seens[k][keys[k].value := k]
    ensures !vs[k].Fresh? ==> seens[k + 1] == seens[k]
    ensures vs[k].Repeats? <==> keys[k].Some? && keys[k].value in seens[k]
    ensures vs[k].Repeats? ==> vs[k].first == seens[k][keys[k].value]
  {
    JudgeKey(env, db, user, rows[k], seens[k], k);
    assert vs[k] == Judge(env, db, user, true, rows[k], seens[k]);
    assert keys[k] == RowKey(env, rows[k]);
  }

  predicate FreshBefore(keys: seq<Option<Key>>, vs: seq<Verdict>, k: nat, j: nat, key: Key) {
    j < k <= |vs| == |keys| && vs[j].Fresh? && keys[j] == Some(key)
  }

  /** A row repeats row j exactly when j is a fresh row before it with the same key. */
  lemma {:induction false} RepeatMeaning(env: ImportEnv, db: DB, user: nat, rows: seq<Row>, vs: seq<Verdict>,
                                         seens: seq<Seen>, keys: seq<Option<Key>>, k: nat)
    requires Judged(env, db, user, true, rows, |rows|, vs, seens) && KeysAre(env, rows, keys) && k < |rows|
    ensures forall j: nat :: vs[k] == Repeats(j) <==> keys[k].Some? && FreshBefore(keys, vs, k, j, keys[k].value)
  {
    SeenUpTo(env, db, user, rows, vs, seens, keys, k);
    SeenRow(env, db, user, rows, vs, seens, keys, k);
  }

  /** Two records of one file count as one: the same second, type and cents, category and account alike
      up to case and surrounding space, the same trimmed note and the same tags. */
  predicate Alike(env: ImportEnv, p: Record, r: Record) {
    && p.occurredAt / 1_000_000_000 == r.occurredAt / 1_000_000_000
    && p.kind == r.kind && env.toCents(p.amount) == env.toCents(r.amount)
    && env.ledger.lower(Trim(p.category)) == env.ledger.lower(Trim(r.category))
    && env.ledger.lower(Trim(p.account)) == env.ledger.lower(Trim(r.account))
    && Trim(p.note) == Trim(r.note) && Join(Tags(p.tags), ",") == Join(Tags(r.tags), ",")
  }

  predicate IsAlikeRecord(env: ImportEnv, rows: seq<Row>, j: nat, r: Record) {
    j < |rows| && !IsEmptyRow(rows[j]) && ParseRecord(env, rows[j]).Ok?
      && Alike(env, ParseRecord(env, rows[j]).value, r)
  }

  lemma {:induction false} KeyAlike(env: ImportEnv, row: Row, r: Record)
    ensures RowKey(env, row) == Some(KeyOf(env, r)) <==>
      !IsEmptyRow(row) && ParseRecord(env, row).Ok? && Alike(env, ParseRecord(env, row).value, r)
  {
  }

  /** Row k repeats row j exactly when j is an earlier row that was kept and whose record is alike. */
  lemma {:induction false} RepeatsExactly(env: ImportEnv, db: DB, user: nat, rows: seq<Row>, vs: seq<Verdict>,
                                          seens: seq<Seen>, k: nat, r: Record)
    requires Judged(env, db, user, true, rows, |rows|, vs, seens) && IsRecord(env, rows, k, r)
    ensures forall j: nat :: vs[k] == Repeats(j) <==> j < k && vs[j].Fresh? && IsAlikeRecord(env, rows, j, r)
  {
    var keys := seq(|rows|, i requires 0 <= i < |rows| => RowKey(env, rows[i]));
    RepeatMeaning(env, db, user, rows, vs, seens, keys, k);
    assert keys[k] == Some(KeyOf(env, r));
    forall j: nat ensures vs[k] == Repeats(j) <==> j < k && vs[j].Fresh? && IsAlikeRecord(env, rows, j, r) {
      if j < k { KeyAlike(env, rows[j], r); }
    }
  }

  /** Only a row with a record can repeat one. */
  lemma {:induction false} RepeatsIsRecord(env: ImportEnv, db: DB, user: nat, rows: seq<Row>, vs: seq<Verdict>,
                                           seens: seq<Seen>, k: nat)
    requires Judged(env, db, user, true, rows, |rows|, vs, seens) && k < |rows| && vs[k].Repeats?
    ensures ParseRecord(env, rows[k]).Ok? && IsRecord(env, rows, k, ParseRecord(env, rows[k]).value)
  {
    assert vs[k] == Judge(env, db, user, true, rows[k], seens[k]);
  }

  /** A record that repeats nothing is skipped exactly when the ledger has it. */
  lemma {:induction false} StoredMeaning(env: ImportEnv, db: DB, user: nat, rows: seq<Row>, vs: seq<Verdict>,
                                         seens: seq<Seen>, k: nat, r: Record)
    requires Judged(env, db, user, true, rows, |rows|, vs, seens) && IsRecord(env, rows, k, r) && !vs[k].Repeats?
    ensures vs[k] == if HasDuplicate(env, db, user, r) then Stored else Fresh
  {
    assert vs[k] == Judge(env, db, user, true, rows[k], seens[k]);
  }

  // ----- names keep their meaning while a batch is resolved -----

  predicate AddedCategory(db: DB, user: nat, c: Category) {
    c.owner == Some(user) && !c.isSystem && FindCategory(db, user, c.kind, c.name).None? && c.name != ""
      && Trim(c.name) == c.name
  }

  predicate AddedAccount(db: DB, user: nat, a: Account) {
    a.owner == user && FindAccount(db, user, a.name).None? && AccountName(a.name) == a.name
  }

  /** next has the names of db, and new ones only where db had none. */
  predicate Extends(db: DB, next: DB, user: nat) {
    && db.nextCategory <= next.nextCategory && db.nextAccount <= next.nextAccount
    && (forall id | id in db.categories :: id in next.categories && next.categories[id] == db.categories[id])
    && (forall id | id in next.categories && id !in db.categories ::
          db.nextCategory <= id < next.nextCategory && AddedCategory(db, user, next.categories[id]))
    && (forall id | id in db.accounts :: id in next.accounts
          && next.accounts[id].owner == db.accounts[id].owner && next.accounts[id].name == db.accounts[id].name)
    && (forall id | id in next.accounts && id !in db.accounts ::
          db.nextAccount <= id < next.nextAccount && AddedAccount(db, user, next.accounts[id]))
  }

  /** A category lookup that succeeded is never changed by find-or-create. */
  lemma {:induction false} StableCategory(db: DB, next: DB, user: nat, kind: string, name: string)
    requires KeysBounded(db) && Extends(db, next, user) && FindCategory(db, user, kind, name).Some?
    ensures FindCategory(next, user, kind, name) == FindCategory(db, user, kind, name)
  {
    var clean := Trim(name);
    TrimTrims(name);
    TrimTrims(clean);
    var id := FindCategory(db, user, kind, name).value;
    assert FindCategory(db, user, kind, clean) == Some(id);
    if FirstUserCategory(db, user, kind, clean, 0).Some? {
      assert IsUserCategory(next, user, kind, clean, id);
      forall j: nat | j < id ensures !IsUserCategory(next, user, kind, clean, j) {
        assert !IsUserCategory(db, user, kind, clean, j);
      }
    } else {
      assert IsSystemCategory(next, kind, clean, id);
      forall j: nat ensures !IsUserCategory(next, user, kind, clean, j) {
        assert j < db.nextCategory ==> !IsUserCategory(db, user, kind, clean, j);
      }
      forall j: nat | j < id ensures !IsSystemCategory(next, kind, clean, j) {
        assert !IsSystemCategory(db, kind, clean, j);
      }
    }
  }

  lemma {:induction false} StableAccount(db: DB, next: DB, user: nat, name: string)
    requires KeysBounded(db) && Extends(db, next, user) && FindAccount(db, user, name).Some?
    ensures FindAccount(next, user, name) == FindAccount(db, user, name)
  {
    var clean := AccountName(name);
    var id := FindAccount(db, user, name).value;
    assert IsUserAccount(next, user, clean, id);
    forall j: nat | j < id ensures !IsUserAccount(next, user, clean, j) {
      assert !IsUserAccount(db, user, clean, j);
    }
  }

  lemma {:induction false} ExtendsRefl(db: DB, user: nat)
    ensures Extends(db, db, user)
  {
  }

  lemma {:induction false} ExtendsTrans(a: DB, b: DB, c: DB, user: nat)
    requires KeysBounded(a) && KeysBounded(b) && Extends(a, b, user) && Extends(b, c, user)
    ensures Extends(a, c, user)
  {
    forall id | id in c.categories && id !in a.categories
      ensures a.nextCategory <= id < c.nextCategory && AddedCategory(a, user, c.categories[id])
    {
      if id !in b.categories {
        var k := c.categories[id];
        assert AddedCategory(b, user, k);
        if FindCategory(a, user, k.kind, k.name).Some? { StableCategory(a, b, user, k.kind, k.name); }
      }
    }
    forall id | id in c.accounts && id !in a.accounts
      ensures a.nextAccount <= id < c.nextAccount && AddedAccount(a, user, c.accounts[id])
    {
      if id !in b.accounts {
        var k := c.accounts[id];
        assert AddedAccount(b, user, k);
        if FindAccount(a, user, k.name).Some? { StableAccount(a, b, user, k.name); }
      } else {
        assert AddedAccount(a, user, b.accounts[id]);
      }
    }
  }

  lemma {:induction false} CategoryFound(user: nat, kind: string, name: string, db: DB)
    requires KeysBounded(db) && FindOrCreateCategory(user, kind, name, db).Ok?
    ensures var f := FindOrCreateCategory(user, kind, name, db).value;
      && KeysBounded(f.db) && Extends(db, f.db, user) && f.db.txs == db.txs && f.db.nextTx == db.nextTx
      && FindCategory(f.db, user, kind, name) == Some(f.id)
  {
    var f := FindOrCreateCategory(user, kind, name, db).value;
    var clean := Trim(name);
    TrimTrims(name);
    TrimTrims(clean);
    if FindCategory(db, user, kind, name).None? {
      forall j: nat | j < f.id ensures !IsUserCategory(f.db, user, kind, clean, j) {
        assert !IsUserCategory(db, user, kind, clean, j);
      }
      assert IsUserCategory(f.db, user, kind, clean, f.id);
    }
  }

  lemma {:induction false} AccountNameIdem(name: string)
    ensures AccountName(AccountName(name)) == AccountName(name)
  {
    TrimTrims(name);
    TrimTrims(AccountName(name));
    assert Trimmed(DEFAULT_ACCOUNT) && DEFAULT_ACCOUNT != "";
    TrimTrims(DEFAULT_ACCOUNT);
    TrimTrims(Trim(name));
  }

  lemma {:induction false} AccountFound(user: nat, name: string, db: DB)
    requires KeysBounded(db)
    ensures var f := FindOrCreateAccount(user, name, db);
      && KeysBounded(f.db) && Extends(db, f.db, user) && f.db.txs == db.txs && f.db.nextTx == db.nextTx
      && FindAccount(f.db, user, name) == Some(f.id)
  {
    var f := FindOrCreateAccount(user, name, db);
    var clean := AccountName(name);
    AccountNameIdem(name);
    if FindAccount(db, user, name).None? {
      forall j: nat | j < f.id ensures !IsUserAccount(f.db, user, clean, j) {
        assert !IsUserAccount(db, user, clean, j);
      }
      assert IsUserAccount(f.db, user, clean, f.id);
    }
  }

  /** req is record r with the names looked up in db. */
  predicate Resolves(db: DB, user: nat, r: Record, req: Request) {
    && req == RequestOf(r, req.category, req.account)
    && FindCategory(db, user, r.kind, r.category) == Some(req.category)
    && FindAccount(db, user, r.account) == Some(req.account)
  }

  lemma {:induction false} ResolvesLater(db: DB, next: DB, user: nat, r: Record, req: Request)
    requires KeysBounded(db) && Extends(db, next, user) && Resolves(db, user, r, req)
    ensures Resolves(next, user, r, req)
  {
    StableCategory(db, next, user, r.kind, r.category);
    StableAccount(db, next, user, r.account);
  }

  lemma {:induction false} ResolveOneMeans(user: nat, r: Record, db: DB)
    requires KeysBounded(db) && ResolveOne(user, r, db).Ok?
    ensures var one := ResolveOne(user, r, db).value;
      && KeysBounded(one.db) && Extends(db, one.db, user) && one.db.txs == db.txs && one.db.nextTx == db.nextTx
      && |one.reqs| == 1 && Resolves(one.db, user, r, one.reqs[0])
  {
    CategoryFound(user, r.kind, r.category, db);
    var c := FindOrCreateCategory(user, r.kind, r.category, db).value;
    AccountFound(user, r.account, c.db);
    var a := FindOrCreateAccount(user, r.account, c.db);
    ExtendsTrans(db, c.db, a.db, user);
    StableCategory(c.db, a.db, user, r.kind, r.category);
  }

  /** Request k is record k with its names looked up in db. */
  predicate ResolvedRow(db: DB, user: nat, recs: seq<Record>, reqs: seq<Request>, k: nat) {
    k < |recs| && k < |reqs| && Resolves(db, user, recs[k], reqs[k])
  }

  ghost predicate AllResolved(db: DB, user: nat, recs: seq<Record>, reqs: seq<Request>) {
    && |reqs| == |recs|
    && forall k {:trigger ResolvedRow(db, user, recs, reqs, k)} :: 0 <= k < |recs| ==>
        ResolvedRow(db, user, recs, reqs, k)
  }

  lemma {:induction false} AllResolvedLater(db: DB, next: DB, user: nat, recs: seq<Record>, reqs: seq<Request>)
    requires KeysBounded(db) && Extends(db, next, user) && AllResolved(db, user, recs, reqs)
    ensures AllResolved(next, user, recs, reqs)
  {
    forall k | 0 <= k < |recs| ensures ResolvedRow(next, user, recs, reqs, k) {
      assert ResolvedRow(db, user, recs, reqs, k);
      ResolvesLater(db, next, user, recs[k], reqs[k]);
    }
  }

  lemma {:induction false} AllResolvedCons(db: DB, user: nat, recs: seq<Record>, reqs: seq<Request>)
    requires recs != [] && reqs != [] && Resolves(db, user, recs[0], reqs[0])
      && AllResolved(db, user, recs[1..], reqs[1..])
    ensures AllResolved(db, user, recs, reqs)
  {
    forall k | 0 <= k < |recs| ensures ResolvedRow(db, user, recs, reqs, k) {
      if k > 0 {
        assert ResolvedRow(db, user, recs[1..], reqs[1..], k - 1);
        assert recs[k] == recs[1..][k - 1] && reqs[k] == reqs[1..][k - 1];
      }
    }
  }

  lemma {:induction false} ResolveMeans(user: nat, recs: seq<Record>, db: DB)
    requires KeysBounded(db) && Resolve(user, recs, db).Ok?
    ensures var all := Resolve(user, recs, db).value;
      && KeysBounded(all.db) && Extends(db, all.db, user) && all.db.txs == db.txs && all.db.nextTx == db.nextTx
      && AllResolved(all.db, user, recs, all.reqs)
  {
    if recs == [] {
      ExtendsRefl(db, user);
    } else {
      ResolveOneMeans(user, recs[0], db);
      var one := ResolveOne(user, recs[0], db).value;
      ResolveMeans(user, recs[1..], one.db);
      var rest := Resolve(user, recs[1..], one.db).value;
      var all := Resolve(user, recs, db).value;
      assert all == Resolved(rest.db, one.reqs + rest.reqs) && all.reqs[1..] == rest.reqs;
      ExtendsTrans(db, one.db, all.db, user);
      ResolvesLater(one.db, all.db, user, recs[0], one.reqs[0]);
      AllResolvedCons(all.db, user, recs, all.reqs);
    }
  }

  // ----- what the batch stores -----

  /** The row a request becomes. */
  predicate StoredAs(env: Env, user: nat, req: Request, t: Tx) {
    env.exact(req.amount).Some? && t == NewTx(env, user, req, env.exact(req.amount).value)
  }

  lemma {:induction false} CreateStores(env: Env, user: nat, req: Request, db: DB)
    requires CreateTx(env, user, req, db).Ok?
    ensures var next := CreateTx(env, user, req, db).value;
      && next.nextTx == db.nextTx + 1 && SameNames(db, next)
      && next.txs.Keys == db.txs.Keys + {db.nextTx} && StoredAs(env, user, req, next.txs[db.nextTx])
      && (KeysBounded(db) ==> KeysBounded(next) && AddsRows(db, next, 1))
  {
  }

  /** Row base + k is what request k becomes. */
  predicate CreatedRow(env: Env, user: nat, reqs: seq<Request>, base: nat, next: DB, k: nat) {
    k < |reqs| && base + k in next.txs && StoredAs(env, user, reqs[k], next.txs[base + k])
  }

  ghost predicate AllCreated(env: Env, user: nat, reqs: seq<Request>, base: nat, next: DB) {
    forall k {:trigger CreatedRow(env, user, reqs, base, next, k)} :: 0 <= k < |reqs| ==>
      CreatedRow(env, user, reqs, base, next, k)
  }

  /** next keeps every row of db and has n more, under the next keys. */
  predicate AddsRows(db: DB, next: DB, n: nat) {
    && (forall id | id in db.txs :: id in next.txs && next.txs[id] == db.txs[id])
    && (forall id | id in next.txs && id !in db.txs :: db.nextTx <= id < db.nextTx + n)
  }

  /** dbs are the ledgers between the requests of a batch. */
  ghost predicate Chain(env: Env, user: nat, reqs: seq<Request>, dbs: seq<DB>) {
    |dbs| == |reqs| + 1 &&
    forall k {:trigger CreateTx(env, user, reqs[k], dbs[k])} :: 0 <= k < |reqs| ==>
      CreateTx(env, user, reqs[k], dbs[k]) == Ok(dbs[k + 1])
  }

  lemma {:induction false} ChainCons(env: Env, user: nat, reqs: seq<Request>, db: DB, dbs: seq<DB>)
    requires reqs != [] && dbs != [] && CreateTx(env, user, reqs[0], db) == Ok(dbs[0])
      && Chain(env, user, reqs[1..], dbs)
    ensures Chain(env, user, reqs, [db] + dbs)
  {
    forall k | 0 <= k < |reqs| ensures CreateTx(env, user, reqs[k], ([db] + dbs)[k]) == Ok(([db] + dbs)[k + 1]) {
      if k > 0 {
        assert CreateTx(env, user, reqs[1..][k - 1], dbs[k - 1]) == Ok(dbs[k]);
        assert reqs[1..][k - 1] == reqs[k];
      }
    }
  }

  lemma {:induction false} CreateChain(env: Env, user: nat, reqs: seq<Request>, db: DB, next: DB) returns (dbs: seq<DB>)
    requires CreateTxs(env, user, reqs, db) == Ok(next)
    ensures Chain(env, user, reqs, dbs) && dbs[0] == db && dbs[|reqs|] == next
  {
    if reqs == [] {
      dbs := [db];
    } else {
      var one := CreateTx(env, user, reqs[0], db).value;
      var rest := CreateChain(env, user, reqs[1..], one, next);
      ChainCons(env, user, reqs, db, rest);
      dbs := [db] + rest;
    }
  }

  /** What a batch has done after its first n requests. */
  ghost predicate DoneUpTo(env: Env, user: nat, reqs: seq<Request>, db: DB, next: DB, n: nat) {
    && n <= |reqs| && next.nextTx == db.nextTx + n && KeysBounded(next) && SameNames(db, next) && AddsRows(db, next, n)
    && forall k {:trigger CreatedRow(env, user, reqs, db.nextTx, next, k)} :: 0 <= k < n ==>
      CreatedRow(env, user, reqs, db.nextTx, next, k)
  }

  lemma {:induction false} DoneStep(env: Env, user: nat, reqs: seq<Request>, db: DB, here: DB, next: DB, n: nat)
    requires DoneUpTo(env, user, reqs, db, here, n) && n < |reqs| && CreateTx(env, user, reqs[n], here) == Ok(next)
    ensures DoneUpTo(env, user, reqs, db, next, n + 1)
  {
    CreateStores(env, user, reqs[n], here);
    forall k | 0 <= k < n + 1 ensures CreatedRow(env, user, reqs, db.nextTx, next, k) {
      if k < n { assert CreatedRow(env, user, reqs, db.nextTx, here, k); }
    }
  }

  lemma {:induction false} DoneAll(env: Env, user: nat, reqs: seq<Request>, dbs: seq<DB>, n: nat)
    requires Chain(env, user, reqs, dbs) && KeysBounded(dbs[0]) && n <= |reqs|
    ensures DoneUpTo(env, user, reqs, dbs[0], dbs[n], n)
  {
    if n > 0 {
      DoneAll(env, user, reqs, dbs, n - 1);
      assert CreateTx(env, user, reqs[n - 1], dbs[n - 1]) == Ok(dbs[n]);
      DoneStep(env, user, reqs, dbs[0], dbs[n - 1], dbs[n], n - 1);
    }
  }

  /** Creating many stores one row per request, in order, and touches no other row or name. */
  lemma {:induction false} CreateManyStores(env: Env, user: nat, reqs: seq<Request>, db: DB, next: DB)
    requires KeysBounded(db) && CreateTxs(env, user, reqs, db) == Ok(next)
    ensures SameNames(db, next) && AddsRows(db, next, |reqs|) && AllCreated(env, user, reqs, db.nextTx, next)
    ensures KeysBounded(next) && next.nextTx == db.nextTx + |reqs|
  {
    var dbs := CreateChain(env, user, reqs, db, next);
    DoneAll(env, user, reqs, dbs, |reqs|);
  }

  lemma {:induction false} SameOwnersExtends(db: DB, next: DB, user: nat)
    requires SameNames(db, next)
    ensures Extends(db, next, user)
  {
  }

  // ----- importing twice -----

  /** Record p is stored with the fields that record r is looked up by. */
  predicate SameEntry(env: ImportEnv, p: Record, r: Record) {
    && (if p.occurredAt == ZERO_TIME then env.ledger.now else p.occurredAt) == r.occurredAt
    && p.kind == r.kind && env.toCents(p.amount) == env.toCents(r.amount)
    && Trim(p.category) == Trim(r.category) && AccountName(p.account) == AccountName(r.account)
    && Trim(p.note) == Trim(r.note) && Join(Tags(p.tags), ",") == Join(Tags(r.tags), ",")
  }

  lemma {:induction false} FoundNames(db: DB, user: nat, r: Record)
    ensures var c := FindCategory(db, user, r.kind, r.category);
      c.Some? ==>
        (&& c.value in db.categories && db.categories[c.value].name == Trim(r.category)
         && db.categories[c.value].kind == r.kind
         && (db.categories[c.value].isSystem || db.categories[c.value].owner == Some(user)))
    ensures var a := FindAccount(db, user, r.account);
      a.Some? ==>
        && a.value in db.accounts && db.accounts[a.value].name == AccountName(r.account)
        && db.accounts[a.value].owner == user
  {
  }

  /** A name found in the extended ledger under an old id was found in the old ledger. */
  lemma {:induction false} FoundBefore(db: DB, next: DB, user: nat, r: Record)
    requires KeysBounded(db) && Extends(db, next, user)
    ensures var c := FindCategory(next, user, r.kind, r.category);
      c.Some? && c.value in db.categories ==> FindCategory(db, user, r.kind, r.category) == c
    ensures var a := FindAccount(next, user, r.account);
      a.Some? && a.value in db.accounts ==> FindAccount(db, user, r.account) == a
  {
    FoundNames(next, user, r);
    var c := FindCategory(next, user, r.kind, r.category);
    if c.Some? && c.value in db.categories {
      assert IsUserCategory(db, user, r.kind, Trim(r.category), c.value)
        || IsSystemCategory(db, r.kind, Trim(r.category), c.value);
      assert FindCategory(db, user, r.kind, r.category).Some?;
      StableCategory(db, next, user, r.kind, r.category);
    }
    var a := FindAccount(next, user, r.account);
    if a.Some? && a.value in db.accounts {
      assert IsUserAccount(db, user, AccountName(r.account), a.value);
      StableAccount(db, next, user, r.account);
    }
  }

  /** The ledger before and after a committed batch, with the requests it stored. */
  ghost predicate Committed(env: ImportEnv, user: nat, recs: seq<Record>, db: DB, last: DB, reqs: seq<Request>) {
    && KeysBounded(db) && KeysBounded(last) && last.nextTx == db.nextTx + |recs|
    && Extends(db, last, user) && AddsRows(db, last, |recs|)
    && AllResolved(last, user, recs, reqs) && AllCreated(env.ledger, user, reqs, db.nextTx, last)
  }

  lemma {:induction false} BatchCommitted(env: ImportEnv, user: nat, recs: seq<Record>, db: DB)
    requires KeysBounded(db) && Batch(env, user, recs, db).Ok?
    ensures Committed(env, user, recs, db, Batch(env, user, recs, db).value, Resolve(user, recs, db).value.reqs)
  {
    var r := Resolve(user, recs, db).value;
    ResolveMeans(user, recs, db);
    ResolvedCommitted(env, user, recs, db, r.db, r.reqs);
  }

  lemma {:induction false} ResolvedCommitted(env: ImportEnv, user: nat, recs: seq<Record>, db: DB, named: DB,
                                             reqs: seq<Request>)
    requires KeysBounded(db) && KeysBounded(named) && Extends(db, named, user) && named.txs == db.txs
      && named.nextTx == db.nextTx
    requires AllResolved(named, user, recs, reqs) && CreateTxs(env.ledger, user, reqs, named).Ok?
    ensures Committed(env, user, recs, db, CreateTxs(env.ledger, user, reqs, named).value, reqs)
  {
    var last := CreateTxs(env.ledger, user, reqs, named).value;
    CreateManyStores(env.ledger, user, reqs, named, last);
    SameOwnersExtends(named, last, user);
    ExtendsTrans(db, named, last, user);
    AllResolvedLater(named, last, user, recs, reqs);
  }

  /** Row id is what record r is looked up as. */
  predicate DuplicateAt(env: ImportEnv, db: DB, user: nat, r: Record, id: nat) {
    var category := FindCategory(db, user, r.kind, r.category);
    var account := FindAccount(db, user, r.account);
    category.Some? && account.Some? && id in db.txs && Matches(env, db.txs[id], user, r, category.value, account.value)
  }

  lemma {:induction false} DuplicateSomewhere(env: ImportEnv, db: DB, user: nat, r: Record)
    ensures HasDuplicate(env, db, user, r) <==> exists id :: DuplicateAt(env, db, user, r, id)
  {
    if HasDuplicate(env, db, user, r) {
      var category := FindCategory(db, user, r.kind, r.category).value;
      var account := FindAccount(db, user, r.account).value;
      var id :| id in db.txs && Matches(env, db.txs[id], user, r, category, account);
      assert DuplicateAt(env, db, user, r, id);
    }
  }

  /** What record k is stored as is what record r is looked up as exactly when they are the same entry. */
  lemma {:induction false} StoredIsEntry(env: ImportEnv, user: nat, last: DB, recs: seq<Record>, reqs: seq<Request>,
                                         base: nat, k: nat, r: Record)
    requires Consistent(env) && ResolvedRow(last, user, recs, reqs, k)
      && CreatedRow(env.ledger, user, reqs, base, last, k)
    ensures SameEntry(env, recs[k], r) <==> DuplicateAt(env, last, user, r, base + k)
  {
    var p := recs[k];
    assert env.ledger.exact(p.amount).value == env.toCents(p.amount);
    FoundNames(last, user, p);
    FoundNames(last, user, r);
    if Trim(p.category) == Trim(r.category) && p.kind == r.kind {
      assert FindCategory(last, user, r.kind, r.category) == FindCategory(last, user, p.kind, p.category);
    }
    if AccountName(p.account) == AccountName(r.account) {
      assert FindAccount(last, user, r.account) == FindAccount(last, user, p.account);
    }
  }

  lemma {:induction false} KeptDuplicate(env: ImportEnv, user: nat, db: DB, last: DB, n: nat, r: Record, id: nat)
    requires KeysBounded(db) && Extends(db, last, user) && AddsRows(db, last, n) && DuplicateAt(env, db, user, r, id)
    ensures DuplicateAt(env, last, user, r, id)
  {
    StableCategory(db, last, user, r.kind, r.category);
    StableAccount(db, last, user, r.account);
  }

  lemma {:induction false} OldDuplicate(env: ImportEnv, user: nat, db: DB, last: DB, r: Record, id: nat)
    requires Integrity(db) && Extends(db, last, user) && id in db.txs && id in last.txs && last.txs[id] == db.txs[id]
    requires DuplicateAt(env, last, user, r, id)
    ensures DuplicateAt(env, db, user, r, id)
  {
    assert GoodTx(db, db.txs[id]);
    FoundBefore(db, last, user, r);
  }

  /** A row of the ledger after the batch was there before, or belongs to one of the records. */
  lemma {:induction false} RowAfter(recs: seq<Record>, db: DB, last: DB, id: nat)
    requires AddsRows(db, last, |recs|) && id in last.txs && id !in db.txs
    ensures db.nextTx <= id < db.nextTx + |recs|
  {
  }

  lemma {:induction false} RecordRow(env: ImportEnv, user: nat, recs: seq<Record>, db: DB, last: DB,
                                     reqs: seq<Request>, k: nat)
    requires AllResolved(last, user, recs, reqs) && AllCreated(env.ledger, user, reqs, db.nextTx, last) && k < |recs|
    ensures ResolvedRow(last, user, recs, reqs, k) && CreatedRow(env.ledger, user, reqs, db.nextTx, last, k)
  {
  }

  lemma {:induction false} NewRowIsEntry(env: ImportEnv, user: nat, recs: seq<Record>, db: DB, last: DB,
                                         reqs: seq<Request>, r: Record, id: nat)
    returns (k: nat)
    requires Consistent(env) && AddsRows(db, last, |recs|)
    requires AllResolved(last, user, recs, reqs) && AllCreated(env.ledger, user, reqs, db.nextTx, last)
    requires DuplicateAt(env, last, user, r, id) && id !in db.txs
    ensures k < |recs| && SameEntry(env, recs[k], r)
  {
    RowAfter(recs, db, last, id);
    k := id - db.nextTx;
    RecordRow(env, user, recs, db, last, reqs, k);
    StoredIsEntry(env, user, last, recs, reqs, db.nextTx, k, r);
  }

  lemma {:induction false} EntryKnown(env: ImportEnv, db: DB, user: nat, recs: seq<Record>, k: nat, r: Record)
    requires k < |recs| && SameEntry(env, recs[k], r)
    ensures KnownEntry(env, db, user, recs, r)
  {
    assert recs[k] in recs;
  }

  lemma {:induction false} DuplicateRowAfter(env: ImportEnv, user: nat, recs: seq<Record>, db: DB, last: DB,
                                             reqs: seq<Request>, r: Record, id: nat)
    requires Consistent(env) && Integrity(db) && Committed(env, user, recs, db, last, reqs)
    requires DuplicateAt(env, last, user, r, id)
    ensures KnownEntry(env, db, user, recs, r)
  {
    if id in db.txs {
      OldDuplicate(env, user, db, last, r, id);
      DuplicateSomewhere(env, db, user, r);
    } else {
      var k := NewRowIsEntry(env, user, recs, db, last, reqs, r, id);
      EntryKnown(env, db, user, recs, k, r);
    }
  }

  lemma {:induction false} EntryStored(env: ImportEnv, user: nat, recs: seq<Record>, db: DB, last: DB,
                                       reqs: seq<Request>, k: nat, r: Record)
    requires Consistent(env) && Committed(env, user, recs, db, last, reqs) && k < |recs| && SameEntry(env, recs[k], r)
    ensures HasDuplicate(env, last, user, r)
  {
    RecordRow(env, user, recs, db, last, reqs, k);
    StoredIsEntry(env, user, last, recs, reqs, db.nextTx, k, r);
    DuplicateSomewhere(env, last, user, r);
  }

  /** After the batch the ledger has a record exactly when it had it before or a stored record is the same entry. */
  lemma {:induction false} DuplicatesAfter(env: ImportEnv, user: nat, recs: seq<Record>, db: DB, last: DB,
                                           reqs: seq<Request>, r: Record)
    requires Consistent(env) && Integrity(db) && Committed(env, user, recs, db, last, reqs)
    ensures HasDuplicate(env, last, user, r) <==> KnownEntry(env, db, user, recs, r)
  {
    DuplicateSomewhere(env, db, user, r);
    DuplicateSomewhere(env, last, user, r);
    if id :| DuplicateAt(env, last, user, r, id) {
      DuplicateRowAfter(env, user, recs, db, last, reqs, r, id);
    }
    if id :| DuplicateAt(env, db, user, r, id) {
      KeptDuplicate(env, user, db, last, |recs|, r, id);
    } else if p :| p in recs && SameEntry(env, p, r) {
      var k :| 0 <= k < |recs| && recs[k] == p;
      EntryStored(env, user, recs, db, last, reqs, k, r);
    }
  }

  /** The record was in the ledger, or is the same entry as one of recs. */
  predicate KnownEntry(env: ImportEnv, db: DB, user: nat, recs: seq<Record>, r: Record) {
    HasDuplicate(env, db, user, r) || exists p | p in recs :: SameEntry(env, p, r)
  }

  lemma {:induction false} NoFreshNoRepeat(env: ImportEnv, db: DB, user: nat, rows: seq<Row>, vs: seq<Verdict>,
                                           seens: seq<Seen>, stored: seq<bool>, k: nat)
    requires Judged(env, db, user, true, rows, |rows|, vs, seens) && StoredAre(env, db, user, rows, stored)
    requires k < |rows| && seens[k] == map[]
    ensures !vs[k].Fresh? ==> seens[k + 1] == map[]
    ensures vs[k].Fresh? <==> !stored[k]
  {
    JudgeKey(env, db, user, rows[k], seens[k], k);
    assert vs[k] == Judge(env, db, user, true, rows[k], seens[k]);
    assert stored[k] == RowStored(env, db, user, rows[k]);
  }

  /** stored[k] says whether row k has no record or one the ledger has. */
  ghost predicate StoredAre(env: ImportEnv, db: DB, user: nat, rows: seq<Row>, stored: seq<bool>) {
    && |stored| == |rows|
    && forall k {:trigger RowStored(env, db, user, rows[k])} :: 0 <= k < |rows| ==>
        stored[k] == RowStored(env, db, user, rows[k])
  }

  /** A run adds nothing exactly when the ledger has every record of the file. */
  lemma {:induction false} NothingFresh(env: ImportEnv, db: DB, user: nat, rows: seq<Row>, vs: seq<Verdict>,
                                        seens: seq<Seen>, stored: seq<bool>)
    requires Judged(env, db, user, true, rows, |rows|, vs, seens) && StoredAre(env, db, user, rows, stored)
    ensures (forall k :: 0 <= k < |vs| ==> !vs[k].Fresh?) <==> forall k :: 0 <= k < |stored| ==> stored[k]
  {
    var n := 0;
    while n < |rows| && !vs[n].Fresh?
      invariant n <= |rows| && seens[n] == map[]
      invariant forall j :: 0 <= j < n ==> !vs[j].Fresh? && stored[j]
    {
      NoFreshNoRepeat(env, db, user, rows, vs, seens, stored, n);
      n := n + 1;
    }
    if n < |rows| {
      NoFreshNoRepeat(env, db, user, rows, vs, seens, stored, n);
      assert !stored[n];
    }
  }

  /** What the two runs say of row k: its record is in the ledger, before and after. */
  predicate RowStored(env: ImportEnv, db: DB, user: nat, row: Row) {
    RowKey(env, row).Some? ==> HasDuplicate(env, db, user, ParseRecord(env, row).value)
  }

  predicate RowKnown(env: ImportEnv, db: DB, user: nat, recs: seq<Record>, row: Row) {
    RowKey(env, row).Some? ==> KnownEntry(env, db, user, recs, ParseRecord(env, row).value)
  }

  /** Every record of the file was in the ledger, or is the same entry as one the first run stores. */
  ghost predicate Repeatable(env: ImportEnv, db: DB, user: nat, rows: seq<Row>, recs: seq<Record>) {
    forall k {:trigger RowKnown(env, db, user, recs, rows[k])} :: 0 <= k < |rows| ==>
      RowKnown(env, db, user, recs, rows[k])
  }

  lemma {:induction false} StoredIsKnown(env: ImportEnv, user: nat, recs: seq<Record>, db: DB, last: DB,
                                         reqs: seq<Request>, row: Row)
    requires Consistent(env) && Integrity(db) && Committed(env, user, recs, db, last, reqs)
    ensures RowStored(env, last, user, row) <==> RowKnown(env, db, user, recs, row)
  {
    if RowKey(env, row).Some? {
      DuplicatesAfter(env, user, recs, db, last, reqs, ParseRecord(env, row).value);
    }
  }

  /**
   Importing the same rows again adds nothing exactly when every record was in the ledger
   before or is the same entry as a stored one.
   */
  lemma {:induction false} ReimportAddsNothing(env: ImportEnv, user: nat, rows: seq<Row>, db: DB, recs: seq<Record>,
                                               last: DB, us: seq<Verdict>, seens: seq<Seen>)
    requires Consistent(env) && Integrity(db) && Batch(env, user, recs, db) == Ok(last)
    requires Judged(env, last, user, true, rows, |rows|, us, seens)
    ensures (forall k :: 0 <= k < |us| ==> !us[k].Fresh?) <==> Repeatable(env, db, user, rows, recs)
  {
    BatchCommitted(env, user, recs, db);
    var reqs := Resolve(user, recs, db).value.reqs;
    var stored := seq(|rows|, k requires 0 <= k < |rows| => RowStored(env, last, user, rows[k]));
    NothingFresh(env, last, user, rows, us, seens, stored);
    forall k | 0 <= k < |rows| ensures stored[k] <==> RowKnown(env, db, user, recs, rows[k]) {
      StoredIsKnown(env, user, recs, db, last, reqs, rows[k]);
    }
  }

  // ----- what the second run reports -----

  /** Whether a row is blank or malformed does not depend on the ledger or on earlier rows. */
  predicate SameShape(v: Verdict, u: Verdict) {
    (v.Blank? <==> u.Blank?) && (v.Bad? <==> u.Bad?)
  }

  lemma {:induction false} JudgedSameShape(env: ImportEnv, db: DB, last: DB, user: nat, rows: seq<Row>,
                                           vs: seq<Verdict>, seens: seq<Seen>, us: seq<Verdict>, seensU: seq<Seen>,
                                           k: nat)
    requires Judged(env, db, user, true, rows, |rows|, vs, seens)
      && Judged(env, last, user, true, rows, |rows|, us, seensU) && k < |rows|
    ensures SameShape(vs[k], us[k])
  {
    assert vs[k] == Judge(env, db, user, true, rows[k], seens[k]);
    assert us[k] == Judge(env, last, user, true, rows[k], seensU[k]);
  }

  lemma {:induction false} CountShapes(t: Tally, u: Tally, vs: seq<Verdict>, us: seq<Verdict>)
    requires |vs| == |us| && t.total == u.total && t.bad == u.bad
    requires forall k :: 0 <= k < |vs| ==> SameShape(vs[k], us[k]) && !us[k].Fresh?
    ensures Count(t, vs).total == Count(u, us).total && Count(t, vs).bad == Count(u, us).bad
    ensures Count(u, us).accepted == u.accepted
    decreases |vs|
  {
    if vs != [] {
      assert SameShape(vs[0], us[0]) && !us[0].Fresh?;
      CountShapes(Add(t, vs[0]), Add(u, us[0]), vs[1..], us[1..]);
    }
  }

  lemma {:induction false} NoFreshRecords(env: ImportEnv, rows: seq<Row>, i: nat, us: seq<Verdict>)
    requires i + |us| == |rows| && forall k :: 0 <= k < |us| ==> !us[k].Fresh?
    ensures FreshRecords(env, rows, i, us) == []
    decreases |us|
  {
    if us != [] {
      assert !us[0].Fresh?;
      NoFreshRecords(env, rows, i + 1, us[1..]);
    }
  }

  /**
   The second import of a repeatable file keeps nothing to write, so the ledger stays as it is,
   and reports the first run's successes as skipped.
   */
  lemma {:induction false} ImportTwice(env: ImportEnv, user: nat, rows: seq<Row>, db: DB, last: DB, vs: seq<Verdict>,
                                       seens: seq<Seen>, us: seq<Verdict>, seensU: seq<Seen>)
    requires Consistent(env) && Integrity(db)
    requires Judged(env, db, user, true, rows, |rows|, vs, seens)
      && Judged(env, last, user, true, rows, |rows|, us, seensU)
    requires Batch(env, user, FreshRecords(env, rows, 0, vs), db) == Ok(last)
    requires Repeatable(env, db, user, rows, FreshRecords(env, rows, 0, vs))
    ensures FreshRecords(env, rows, 0, us) == []
    ensures var first := ResultOf(Count(ZERO, vs), true);
      ResultOf(Count(ZERO, us), true) == ImportResult(first.total, 0, first.failed, first.skipped + first.success)
  {
    ReimportAddsNothing(env, user, rows, db, FreshRecords(env, rows, 0, vs), last, us, seensU);
    forall k | 0 <= k < |rows| ensures SameShape(vs[k], us[k]) {
      JudgedSameShape(env, db, last, user, rows, vs, seens, us, seensU, k);
    }
    CountShapes(ZERO, ZERO, vs, us);
    CountSums(ZERO, vs);
    CountSums(ZERO, us);
    NoFreshRecords(env, rows, 0, us);
  }

  // ----- a condition on the file alone -----

  /** Two rows with the same in-file key also agree in name case, sub-seconds and a non-zero time. */
  predicate KeyDecides(env: ImportEnv, row: Row, other: Row) {
    RowKey(env, row).Some? && RowKey(env, row) == RowKey(env, other) ==>
      SameEntry(env, ParseRecord(env, row).value, ParseRecord(env, other).value)
  }

  ghost predicate KeysDecide(env: ImportEnv, rows: seq<Row>) {
    forall j, k {:trigger KeyDecides(env, rows[j], rows[k])} :: 0 <= j < |rows| && 0 <= k < |rows| ==>
      KeyDecides(env, rows[j], rows[k])
  }

  /** The first row's record is among the fresh ones, and so are those of the rows after it. */
  lemma {:induction false} FreshRecordsHead(env: ImportEnv, rows: seq<Row>, i: nat, vs: seq<Verdict>, r: Record)
    requires i + |vs| == |rows| && vs != []
    requires KeptRecord(env, rows[i], vs[0]) == [r] || r in FreshRecords(env, rows, i + 1, vs[1..])
    ensures r in FreshRecords(env, rows, i, vs)
  {
    var kept, rest := KeptRecord(env, rows[i], vs[0]), FreshRecords(env, rows, i + 1, vs[1..]);
    assert FreshRecords(env, rows, i, vs) == kept + rest;
    assert r in kept || r in rest;
  }

  lemma {:induction false} FreshRowKept(env: ImportEnv, rows: seq<Row>, i: nat, vs: seq<Verdict>, k: nat, r: Record)
    requires i + |vs| == |rows| && k < |vs| && KeptRecord(env, rows[i + k], vs[k]) == [r]
    ensures r in FreshRecords(env, rows, i, vs)
    decreases |vs|
  {
    if k > 0 {
      assert vs[1..][k - 1] == vs[k];
      FreshRowKept(env, rows, i + 1, vs[1..], k - 1, r);
    }
    FreshRecordsHead(env, rows, i, vs, r);
  }

  lemma {:induction false} FreshRowKnown(env: ImportEnv, user: nat, rows: seq<Row>, db: DB, vs: seq<Verdict>, j: nat,
                                         k: nat)
    requires |vs| == |rows| && j < |rows| && k < |rows| && vs[j].Fresh?
    requires KeyDecides(env, rows[j], rows[k]) && RowKey(env, rows[j]) == RowKey(env, rows[k])
    ensures RowKnown(env, db, user, FreshRecords(env, rows, 0, vs), rows[k])
  {
    if RowKey(env, rows[j]).Some? {
      var r := ParseRecord(env, rows[j]).value;
      assert KeptRecord(env, rows[0 + j], vs[j]) == [r];
      FreshRowKept(env, rows, 0, vs, j, r);
      assert 0 + j == j;
      assert ParseRecord(env, rows[j]).value in FreshRecords(env, rows, 0, vs);
    }
  }

  lemma {:induction false} StoredRowKnown(env: ImportEnv, user: nat, rows: seq<Row>, db: DB, vs: seq<Verdict>,
                                          seens: seq<Seen>, k: nat)
    requires Judged(env, db, user, true, rows, |rows|, vs, seens) && k < |rows| && !vs[k].Fresh? && !vs[k].Repeats?
    ensures RowKnown(env, db, user, FreshRecords(env, rows, 0, vs), rows[k])
  {
    if RowKey(env, rows[k]).Some? {
      StoredMeaning(env, db, user, rows, vs, seens, k, ParseRecord(env, rows[k]).value);
    }
  }

  lemma {:induction false} DecidedRowKnown(env: ImportEnv, user: nat, rows: seq<Row>, db: DB, vs: seq<Verdict>,
                                           seens: seq<Seen>, keys: seq<Option<Key>>, k: nat)
    requires Judged(env, db, user, true, rows, |rows|, vs, seens) && KeysAre(env, rows, keys) && k < |rows|
    requires KeysDecide(env, rows)
    ensures RowKnown(env, db, user, FreshRecords(env, rows, 0, vs), rows[k])
  {
    if !vs[k].Fresh? && !vs[k].Repeats? {
      StoredRowKnown(env, user, rows, db, vs, seens, k);
    } else {
      var j := if vs[k].Repeats? then vs[k].first else k;
      assert j < |rows| && vs[j].Fresh? && RowKey(env, rows[j]) == RowKey(env, rows[k]) by {
        RepeatMeaning(env, db, user, rows, vs, seens, keys, k);
        assert vs[k].Repeats? ==> FreshBefore(keys, vs, k, j, keys[k].value);
        assert keys[k] == RowKey(env, rows[k]);
        assert j < |rows| && keys[j] == RowKey(env, rows[j]);
      }
      assert KeyDecides(env, rows[j], rows[k]);
      FreshRowKnown(env, user, rows, db, vs, j, k);
    }
  }

  /** If equal keys decide the entry, importing the file twice adds nothing the second time. */
  lemma {:induction false} DecidedRepeatable(env: ImportEnv, user: nat, rows: seq<Row>, db: DB, vs: seq<Verdict>,
                                             seens: seq<Seen>)
    requires Judged(env, db, user, true, rows, |rows|, vs, seens) && KeysDecide(env, rows)
    ensures Repeatable(env, db, user, rows, FreshRecords(env, rows, 0, vs))
  {
    var keys := seq(|rows|, k requires 0 <= k < |rows| => RowKey(env, rows[k]));
    forall k | 0 <= k < |rows| ensures RowKnown(env, db, user, FreshRecords(env, rows, 0, vs), rows[k]) {
      DecidedRowKnown(env, user, rows, db, vs, seens, keys, k);
    }
  }

  // ----- the batch and the ledger's invariants -----

  lemma {:induction false} ResolveOneKeeps(user: nat, r: Record, db: DB)
    requires Integrity(db) && IsKind(r.kind) && ResolveOne(user, r, db).Ok?
    ensures Integrity(ResolveOne(user, r, db).value.db)
  {
    ResolveCategoryKeeps(user, r.kind, r.category, db);
    ResolveAccountKeeps(user, r.account, FindOrCreateCategory(user, r.kind, r.category, db).value.db);
  }

  lemma {:induction false} ResolveKeeps(user: nat, recs: seq<Record>, db: DB)
    requires Integrity(db) && (forall k :: 0 <= k < |recs| ==> IsKind(recs[k].kind)) && Resolve(user, recs, db).Ok?
    ensures Integrity(Resolve(user, recs, db).value.db)
  {
    if recs != [] {
      ResolveOneKeeps(user, recs[0], db);
      ResolveKeeps(user, recs[1..], ResolveOne(user, recs[0], db).value.db);
    }
  }

  /** A committed import keeps referential integrity. */
  lemma {:induction false} BatchKeepsIntegrity(env: ImportEnv, user: nat, recs: seq<Record>, db: DB)
    requires Integrity(db) && (forall k :: 0 <= k < |recs| ==> IsKind(recs[k].kind)) && Batch(env, user, recs, db).Ok?
    ensures Integrity(Batch(env, user, recs, db).value)
  {
    ResolveKeeps(user, recs, db);
    var r := Resolve(user, recs, db).value;
    CreateManyKeeps(env.ledger, user, r.reqs, r.db);
  }

  // ----- the import job -----

  lemma {:induction false} VerdictBlank(env: ImportEnv, db: DB, user: nat, skip: bool, rows: seq<Row>,
                                        vs: seq<Verdict>, seens: seq<Seen>, k: nat)
    requires Judged(env, db, user, skip, rows, |rows|, vs, seens) && k < |rows|
    ensures vs[k].Blank? <==> IsEmptyRow(rows[k])
  {
    assert vs[k] == Judge(env, db, user, skip, rows[k], seens[k]);
  }

  lemma {:induction false} CountTotal(t: Tally, vs: seq<Verdict>, rows: seq<Row>)
    requires |vs| == |rows| && forall k :: 0 <= k < |rows| ==> (vs[k].Blank? <==> IsEmptyRow(rows[k]))
    ensures Count(t, vs).total == t.total + DataRows(rows)
    decreases |vs|
  {
    if vs != [] {
      assert vs[0].Blank? <==> IsEmptyRow(rows[0]);
      CountTotal(Add(t, vs[0]), vs[1..], rows[1..]);
    }
  }

  /** The finished job reports the run: its totals add up, and it failed exactly when a row failed. */
  lemma {:induction false} JobReportsRun(env: ImportEnv, db: DB, user: nat, skip: bool, rows: seq<Row>,
                                         vs: seq<Verdict>, seens: seq<Seen>, committed: bool)
    requires Judged(env, db, user, skip, rows, |rows|, vs, seens)
    ensures var r := ResultOf(Count(ZERO, vs), committed);
      var job := FinishJob(StartJob(QueueJob(rows)), r);
      && job == Job(if r.failed > 0 then "failed" else "completed", r.total, r.success, r.failed, r.skipped)
      && job.total == job.success + job.failed + job.skipped
  {
    forall k | 0 <= k < |rows| ensures vs[k].Blank? <==> IsEmptyRow(rows[k]) {
      VerdictBlank(env, db, user, skip, rows, vs, seens, k);
    }
    CountTotal(ZERO, vs, rows);
    CountSums(ZERO, vs);
  }
}
