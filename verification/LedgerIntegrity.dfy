/**
 Referential integrity over serial runs: every stored transaction has a positive amount,
 an exact type, an account of its owner, and a category that is the system's or its owner's.
 The schema's foreign keys see to the rows' existence; amounts, types and owners are the code's.
 */
module LedgerIntegrity {
  import opened Common
  import opened Text
  import opened Ledger

  predicate GoodTx(db: DB, t: Tx) {
    && t.cents > 0
    && IsKind(t.kind)
    && t.account in db.accounts && db.accounts[t.account].owner == t.owner
    && t.category in db.categories
    && (db.categories[t.category].isSystem || db.categories[t.category].owner == Some(t.owner))
  }

  predicate Integrity(db: DB) {
    && KeysBounded(db)
    && (forall id | id in db.categories :: IsKind(db.categories[id].kind))
    && (forall id | id in db.txs :: GoodTx(db, db.txs[id]))
  }

  /** One service call that runs without another between its steps, with what it takes from outside. */
  datatype Op =
    | Create(env: Env, user: nat, reqs: seq<Request>)
    | Update(env: Env, user: nat, id: nat, req: Request)
    | Delete(user: nat, id: nat)
    | NewAccount(env: Env, user: nat, name: string, kind: string, balance: real)
    | EditAccount(env: Env, user: nat, id: nat, name: string, kind: string, balance: real)
    | RemoveAccount(user: nat, id: nat)
    | NewCategory(env: Env, user: nat, name: string, kind: string)
    | EditCategory(env: Env, user: nat, id: nat, name: string, kind: string)
    | RemoveCategory(user: nat, id: nat)
    | ResolveNames(user: nat, income: bool, category: string, account: string)
    | RolledBack

  function OrElse(r: Result<DB>, db: DB): DB { if r.Ok? then r.value else db }

  /** The database after the call; a call that errs leaves it as it was. */
  function Perform(op: Op, db: DB): DB {
    match op
    case Create(env, user, reqs) => OrElse(CreateTxs(env, user, reqs, db), db)
    case Update(env, user, id, req) =>
      var p := PrepareUpdate(env, user, id, req, db);
      if p.Ok? then Commit(p.value, db) else db
    case Delete(user, id) =>
      var p := PrepareDelete(user, id, db);
      if p.Ok? then Commit(p.value, db) else db
    case NewAccount(env, user, name, kind, balance) => OrElse(CreateAccount(env, user, name, kind, balance, db), db)
    case EditAccount(env, user, id, name, kind, balance) =>
      var a := PrepareAccount(env, user, id, name, kind, balance, db);
      if a.Ok? then SaveAccount(db, id, a.value) else db
    case RemoveAccount(user, id) => OrElse(DeleteAccount(user, id, db), db)
    case NewCategory(env, user, name, kind) => OrElse(CreateCategory(env, user, name, kind, db), db)
    case EditCategory(env, user, id, name, kind) => OrElse(UpdateCategory(env, user, id, name, kind, db), db)
    case RemoveCategory(user, id) => OrElse(DeleteCategory(user, id, db), db)
    case ResolveNames(user, income, category, account) =>
      var c := FindOrCreateCategory(user, if income then "income" else "expense", category, db);
      FindOrCreateAccount(user, account, if c.Ok? then c.value.db else db).db
    case RolledBack => db
  }

  // ----- transactions -----

  /** A transaction is as good in a database with the same names. */
  lemma {:induction false} SameNamesGood(db: DB, next: DB, t: Tx)
    requires SameNames(db, next)
    ensures GoodTx(next, t) <==> GoodTx(db, t)
  {
  }

  /** Good rows over the same names make an intact database. */
  lemma {:induction false} GoodRowsKeep(db: DB, next: DB)
    requires Integrity(db) && SameNames(db, next)
    requires forall id | id in next.txs :: id < next.nextTx && GoodTx(db, next.txs[id])
    ensures Integrity(next)
  {
    forall id | id in next.txs ensures GoodTx(next, next.txs[id]) {
      SameNamesGood(db, next, next.txs[id]);
    }
  }

  /** The type passes although only a copy of it was normalised: the category's type is exact. */
  lemma {:induction false} RequestGood(env: Env, user: nat, req: Request, db: DB)
    requires Integrity(db) && RequestCents(env, req).Ok?
      && CheckRefs(db, user, req.kind, req.category, req.account).None?
    ensures GoodTx(db, NewTx(env, user, req, RequestCents(env, req).value))
  {
  }

  lemma {:induction false} CreateShape(env: Env, user: nat, req: Request, db: DB)
    requires CreateTx(env, user, req, db).Ok?
    ensures var next := CreateTx(env, user, req, db).value;
      && SameNames(db, next) && next.nextTx == db.nextTx + 1
      && next.txs == db.txs[db.nextTx := NewTx(env, user, req, RequestCents(env, req).value)]
  {
  }

  lemma {:induction false} CreateKeeps(env: Env, user: nat, req: Request, db: DB)
    requires Integrity(db) && CreateTx(env, user, req, db).Ok?
    ensures Integrity(CreateTx(env, user, req, db).value)
  {
    RequestGood(env, user, req, db);
    CreateShape(env, user, req, db);
    GoodRowsKeep(db, CreateTx(env, user, req, db).value);
  }

  lemma {:induction false} CreateManyKeeps(env: Env, user: nat, reqs: seq<Request>, db: DB)
    requires Integrity(db) && CreateTxs(env, user, reqs, db).Ok?
    ensures Integrity(CreateTxs(env, user, reqs, db).value)
  {
    if reqs != [] {
      CreateKeeps(env, user, reqs[0], db);
      CreateManyKeeps(env, user, reqs[1..], CreateTx(env, user, reqs[0], db).value);
    }
  }

  lemma {:induction false} CommitShape(p: Pending, db: DB)
    ensures var next := Written(p, db);
      && SameNames(db, next) && next.nextTx == db.nextTx
      && next.txs == if p.UpdateTx? then db.txs[p.id := p.after] else db.txs - {p.id}
  {
  }

  /** The row's account and category have been handed out, and while they exist they are the owner's
      or the system's. */
  predicate OwnersFit(t: Tx, db: DB) {
    && t.account < db.nextAccount && t.category < db.nextCategory
    && (t.account in db.accounts ==> db.accounts[t.account].owner == t.owner)
    && (t.category in db.categories ==>
          db.categories[t.category].isSystem || db.categories[t.category].owner == Some(t.owner))
  }

  /** What every read leaves behind: a stored key, and for an update an amount, a type and owners that fit. */
  predicate Readable(p: Pending, db: DB) {
    p.id < db.nextTx && (p.UpdateTx? ==> p.after.cents > 0 && IsKind(p.after.kind) && OwnersFit(p.after, db))
  }

  /** The foreign keys refuse exactly the commits whose writes would break integrity. */
  lemma {:induction false} RefusedExactly(p: Pending, db: DB)
    requires Integrity(db) && Readable(p, db)
    ensures Refused(p, db) <==> !Integrity(Written(p, db))
  {
    var next := Written(p, db);
    CommitShape(p, db);
    if Refused(p, db) {
      SameNamesGood(db, next, p.after);
      assert next.txs[p.id] == p.after;
    } else {
      GoodRowsKeep(db, next);
    }
  }

  /** So a commit keeps integrity, whatever happened since its read. */
  lemma {:induction false} CommitKeeps(p: Pending, db: DB)
    requires Integrity(db) && Readable(p, db)
    ensures Integrity(Commit(p, db))
  {
    RefusedExactly(p, db);
  }

  lemma {:induction false} ReadUpdateReadable(env: Env, user: nat, id: nat, req: Request, db: DB)
    requires Integrity(db) && PrepareUpdate(env, user, id, req, db).Ok?
    ensures var p := PrepareUpdate(env, user, id, req, db).value; Readable(p, db) && !Refused(p, db)
  {
    RequestGood(env, user, req, db);
    assert GoodTx(db, db.txs[id]);
  }

  lemma {:induction false} UpdateKeeps(env: Env, user: nat, id: nat, req: Request, db: DB)
    requires Integrity(db) && PrepareUpdate(env, user, id, req, db).Ok?
    ensures Integrity(Commit(PrepareUpdate(env, user, id, req, db).value, db))
  {
    ReadUpdateReadable(env, user, id, req, db);
    CommitKeeps(PrepareUpdate(env, user, id, req, db).value, db);
  }

  lemma {:induction false} DeleteKeeps(user: nat, id: nat, db: DB)
    requires Integrity(db) && PrepareDelete(user, id, db).Ok?
    ensures Integrity(Commit(PrepareDelete(user, id, db).value, db))
  {
    CommitKeeps(PrepareDelete(user, id, db).value, db);
  }

  // ----- accounts and categories -----

  /** Replacing or adding rows that keep every referenced owner keeps integrity. */
  lemma {:induction false} AccountsKeep(db: DB, accounts: map<nat, Account>, nextAccount: nat)
    requires Integrity(db) && forall id | id in accounts :: id < nextAccount
    requires forall id | id in db.txs ::
      var a := db.txs[id].account; a in accounts && accounts[a].owner == db.accounts[a].owner
    ensures Integrity(db.(accounts := accounts, nextAccount := nextAccount))
  {
    var next := db.(accounts := accounts, nextAccount := nextAccount);
    forall k | k in next.txs ensures GoodTx(next, next.txs[k]) {
      assert GoodTx(db, db.txs[k]);
    }
  }

  lemma {:induction false} CategoriesKeep(db: DB, categories: map<nat, Category>, nextCategory: nat)
    requires Integrity(db) && forall id | id in categories :: id < nextCategory && IsKind(categories[id].kind)
    requires forall id | id in db.txs ::
      var c := db.txs[id].category;
      c in categories && categories[c].owner == db.categories[c].owner
        && categories[c].isSystem == db.categories[c].isSystem
    ensures Integrity(db.(categories := categories, nextCategory := nextCategory))
  {
    var next := db.(categories := categories, nextCategory := nextCategory);
    forall k | k in next.txs ensures GoodTx(next, next.txs[k]) {
      assert GoodTx(db, db.txs[k]);
    }
  }

  /** Nobody but the owner can refer to an account or to a category that is not the system's, so the
      count of the owner's transactions decides. */
  lemma {:induction false} AccountUnused(user: nat, id: nat, db: DB)
    requires Integrity(db) && OwnsAccount(db, user, id)
    ensures AccountInUse(db, user, id) <==> AccountReferenced(db, id)
  {
    if k :| k in db.txs && db.txs[k].account == id {
      assert GoodTx(db, db.txs[k]);
    }
  }

  lemma {:induction false} CategoryUnused(user: nat, id: nat, db: DB)
    requires Integrity(db) && OwnsCategory(db, user, id)
    ensures CategoryInUse(db, user, id) <==> CategoryReferenced(db, id)
  {
    if k :| k in db.txs && db.txs[k].category == id {
      assert GoodTx(db, db.txs[k]);
    }
  }

  /** Taking an account out of its table breaks integrity exactly when the foreign key refuses it. */
  lemma {:induction false} AccountRefusedExactly(id: nat, db: DB)
    requires Integrity(db)
    ensures AccountReferenced(db, id) <==> !Integrity(db.(accounts := db.accounts - {id}))
  {
    var next := db.(accounts := db.accounts - {id});
    if AccountReferenced(db, id) {
      var k :| k in db.txs && db.txs[k].account == id;
      assert !GoodTx(next, next.txs[k]);
    } else {
      forall k | k in db.txs ensures db.txs[k].account in next.accounts {
        assert GoodTx(db, db.txs[k]);
      }
      AccountsKeep(db, next.accounts, db.nextAccount);
    }
  }

  lemma {:induction false} CategoryRefusedExactly(id: nat, db: DB)
    requires Integrity(db)
    ensures CategoryReferenced(db, id) <==> !Integrity(db.(categories := db.categories - {id}))
  {
    var next := db.(categories := db.categories - {id});
    if CategoryReferenced(db, id) {
      var k :| k in db.txs && db.txs[k].category == id;
      assert !GoodTx(next, next.txs[k]);
    } else {
      forall k | k in db.txs ensures db.txs[k].category in next.categories {
        assert GoodTx(db, db.txs[k]);
      }
      CategoriesKeep(db, next.categories, db.nextCategory);
    }
  }

  /** A removal keeps integrity whatever happened since its count of transactions. */
  lemma {:induction false} DropAccountKeeps(user: nat, id: nat, db: DB)
    requires Integrity(db)
    ensures Integrity(DropAccount(db, user, id))
  {
    AccountRefusedExactly(id, db);
  }

  lemma {:induction false} DropCategoryKeeps(user: nat, id: nat, db: DB)
    requires Integrity(db)
    ensures Integrity(DropCategory(db, user, id))
  {
    CategoryRefusedExactly(id, db);
  }

  /** The count of the caller's transactions already finds every reference: right after it, the
      foreign key has nothing to refuse. */
  lemma {:induction false} RemoveAccountKeeps(user: nat, id: nat, db: DB)
    requires Integrity(db)
    ensures Integrity(OrElse(DeleteAccount(user, id, db), db)) && DeleteAccount(user, id, db) != Err(DATABASE_ERROR)
  {
    DropAccountKeeps(user, id, db);
    if OwnsAccount(db, user, id) { AccountUnused(user, id, db); }
  }

  lemma {:induction false} RemoveCategoryKeeps(user: nat, id: nat, db: DB)
    requires Integrity(db)
    ensures Integrity(OrElse(DeleteCategory(user, id, db), db)) && DeleteCategory(user, id, db) != Err(DATABASE_ERROR)
  {
    DropCategoryKeeps(user, id, db);
    if OwnsCategory(db, user, id) { CategoryUnused(user, id, db); }
  }

  lemma {:induction false} NewAccountKeeps(db: DB, a: Account)
    requires Integrity(db)
    ensures Integrity(InsertAccount(db, a))
  {
    forall k | k in db.txs ensures db.txs[k].account in db.accounts && db.txs[k].account < db.nextAccount {
      assert GoodTx(db, db.txs[k]);
    }
    AccountsKeep(db, db.accounts[db.nextAccount := a], db.nextAccount + 1);
  }

  lemma {:induction false} NewCategoryKeeps(db: DB, c: Category)
    requires Integrity(db) && IsKind(c.kind)
    ensures Integrity(InsertCategory(db, c))
  {
    forall k | k in db.txs ensures db.txs[k].category in db.categories && db.txs[k].category < db.nextCategory {
      assert GoodTx(db, db.txs[k]);
    }
    CategoriesKeep(db, db.categories[db.nextCategory := c], db.nextCategory + 1);
  }

  lemma {:induction false} ResolveCategoryKeeps(user: nat, kind: string, name: string, db: DB)
    requires Integrity(db) && IsKind(kind) && FindOrCreateCategory(user, kind, name, db).Ok?
    ensures Integrity(FindOrCreateCategory(user, kind, name, db).value.db)
  {
    NewCategoryKeeps(db, Category(Some(user), Trim(name), kind, false));
  }

  lemma {:induction false} ResolveAccountKeeps(user: nat, name: string, db: DB)
    requires Integrity(db)
    ensures Integrity(FindOrCreateAccount(user, name, db).db)
  {
    NewAccountKeeps(db, Account(user, AccountName(name), "custom", 0));
  }

  /** Saving a row of an account that is there with the same owner, or is gone. */
  lemma {:induction false} EditAccountKeeps(db: DB, id: nat, a: Account)
    requires Integrity(db) && id < db.nextAccount && (id in db.accounts ==> a.owner == db.accounts[id].owner)
    ensures Integrity(SaveAccount(db, id, a))
  {
    forall k | k in db.txs ensures db.txs[k].account in db.accounts {
      assert GoodTx(db, db.txs[k]);
    }
    AccountsKeep(db, db.accounts[id := a], db.nextAccount);
  }

  lemma {:induction false} EditCategoryKeeps(db: DB, id: nat, c: Category)
    requires Integrity(db) && id < db.nextCategory && IsKind(c.kind)
    requires id in db.categories ==> c.owner == db.categories[id].owner && c.isSystem == db.categories[id].isSystem
    ensures Integrity(SaveCategory(db, id, c))
  {
    forall k | k in db.txs ensures db.txs[k].category in db.categories {
      assert GoodTx(db, db.txs[k]);
    }
    CategoriesKeep(db, db.categories[id := c], db.nextCategory);
  }

  // ----- serial runs -----

  lemma {:induction false} AddAccountKeeps(env: Env, user: nat, name: string, kind: string, balance: real, db: DB)
    requires Integrity(db)
    ensures Integrity(OrElse(CreateAccount(env, user, name, kind, balance, db), db))
  {
    var r := CreateAccount(env, user, name, kind, balance, db);
    if r.Ok? { NewAccountKeeps(db, r.value.accounts[db.nextAccount]); }
  }

  lemma {:induction false} AddCategoryKeeps(env: Env, user: nat, name: string, kind: string, db: DB)
    requires Integrity(db)
    ensures Integrity(OrElse(CreateCategory(env, user, name, kind, db), db))
  {
    var r := CreateCategory(env, user, name, kind, db);
    if r.Ok? { NewCategoryKeeps(db, r.value.categories[db.nextCategory]); }
  }

  lemma {:induction false} ChangeCategoryKeeps(env: Env, user: nat, id: nat, name: string, kind: string, db: DB)
    requires Integrity(db)
    ensures Integrity(OrElse(UpdateCategory(env, user, id, name, kind, db), db))
  {
    var c := PrepareCategory(env, user, id, name, kind, db);
    if c.Ok? { EditCategoryKeeps(db, id, c.value); }
  }

  lemma {:induction false} ResolveNamesKeeps(user: nat, income: bool, category: string, account: string, db: DB)
    requires Integrity(db)
    ensures Integrity(Perform(ResolveNames(user, income, category, account), db))
  {
    var kind := if income then "income" else "expense";
    var c := FindOrCreateCategory(user, kind, category, db);
    if c.Ok? { ResolveCategoryKeeps(user, kind, category, db); }
    ResolveAccountKeeps(user, account, if c.Ok? then c.value.db else db);
  }

  lemma {:induction false} TxOpKeeps(op: Op, db: DB)
    requires Integrity(db) && (op.Create? || op.Update? || op.Delete?)
    ensures Integrity(Perform(op, db))
  {
    match op {
      case Create(env, user, reqs) => if CreateTxs(env, user, reqs, db).Ok? { CreateManyKeeps(env, user, reqs, db); }
      case Update(env, user, id, req) =>
        if PrepareUpdate(env, user, id, req, db).Ok? { UpdateKeeps(env, user, id, req, db); }
      case Delete(user, id) => if PrepareDelete(user, id, db).Ok? { DeleteKeeps(user, id, db); }
      case _ =>
    }
  }

  lemma {:induction false} PerformKeeps(op: Op, db: DB)
    requires Integrity(db)
    ensures Integrity(Perform(op, db))
  {
    match op {
      case NewAccount(env, user, name, kind, balance) => AddAccountKeeps(env, user, name, kind, balance, db);
      case EditAccount(env, user, id, name, kind, balance) =>
        var a := PrepareAccount(env, user, id, name, kind, balance, db);
        if a.Ok? { EditAccountKeeps(db, id, a.value); }
      case RemoveAccount(user, id) => RemoveAccountKeeps(user, id, db);
      case NewCategory(env, user, name, kind) => AddCategoryKeeps(env, user, name, kind, db);
      case EditCategory(env, user, id, name, kind) => ChangeCategoryKeeps(env, user, id, name, kind, db);
      case RemoveCategory(user, id) => RemoveCategoryKeeps(user, id, db);
      case ResolveNames(user, income, category, account) => ResolveNamesKeeps(user, income, category, account, db);
      case RolledBack =>
      case _ => TxOpKeeps(op, db);
    }
  }

  function Run(db: DB, ops: seq<Op>): DB
    decreases |ops|
  {
    if ops == [] then db else Run(Perform(ops[0], db), ops[1..])
  }

  /** Every reachable state of a serial run has integrity. */
  lemma {:induction false} RunKeeps(db: DB, ops: seq<Op>)
    requires Integrity(db)
    ensures Integrity(Run(db, ops))
    decreases |ops|
  {
    if ops != [] {
      PerformKeeps(ops[0], db);
      RunKeeps(Perform(ops[0], db), ops[1..]);
    }
  }

  /** A database with only the seeded system categories. */
  predicate Seeded(db: DB) {
    && db.txs == map[] && db.accounts == map[]
    && forall id | id in db.categories ::
      && id < db.nextCategory && IsKind(db.categories[id].kind) && db.categories[id].isSystem
  }

  lemma {:induction false} SeededRunKeeps(db: DB, ops: seq<Op>)
    requires Seeded(db)
    ensures Integrity(Run(db, ops))
  {
    RunKeeps(db, ops);
  }

  /** An account deleted between the read and the commit of a move onto it: what the commit writes would
      lose the account, and the foreign key refuses it. */
  lemma {:induction false} StaleUpdateRefused(env: Env, user: nat, id: nat, req: Request, db: DB)
    requires Integrity(db) && PrepareUpdate(env, user, id, req, db).Ok? && !AccountInUse(db, user, req.account)
    ensures var p := PrepareUpdate(env, user, id, req, db).value;
      var deleted := DeleteAccount(user, req.account, db);
      && deleted.Ok? && req.account !in deleted.value.accounts
      && !Integrity(Written(p, deleted.value)) && Commit(p, deleted.value) == deleted.value
  {
    var p := PrepareUpdate(env, user, id, req, db).value;
    AccountUnused(user, req.account, db);
    var last := Written(p, DeleteAccount(user, req.account, db).value);
    assert last.txs[id] == p.after && req.account !in last.accounts;
    assert !GoodTx(last, last.txs[id]);
  }
}
