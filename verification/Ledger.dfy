/**
 The ledger tables and the operations on them.  Balances are an incrementally
 maintained index over the stored transactions.  Update and Delete read the old
 row outside the transaction that uses it, so each is a prepare step and a commit step.
 */
module Ledger {
  import opened Common
  import opened Text

  datatype Account = Account(owner: nat, name: string, kind: string, balance: int)

  datatype Category = Category(owner: Option<nat>, name: string, kind: string, isSystem: bool)

  /** A stored transaction; time is in nanoseconds, 0 being Go's zero time. */
  datatype Tx = Tx(owner: nat, kind: string, cents: int, category: nat, account: nat,
                   note: string, tags: string, occurredAt: int, source: string)

  /** The tables, keyed by primary key, with the next key of each. */
  datatype DB = DB(accounts: map<nat, Account>, categories: map<nat, Category>, txs: map<nat, Tx>,
                   nextAccount: nat, nextCategory: nat, nextTx: nat)

  datatype Request = Request(kind: string, amount: real, category: nat, account: nat, note: string,
                             tags: seq<string>, source: string, occurredAt: int, allowEmptyNote: bool)

  /** Every stored key is below the next one of its table. */
  predicate KeysBounded(db: DB) {
    && (forall id | id in db.accounts :: id < db.nextAccount)
    && (forall id | id in db.categories :: id < db.nextCategory)
    && (forall id | id in db.txs :: id < db.nextTx)
  }

  /** The same accounts, up to their balances. */
  predicate SameOwners(db: DB, next: DB) {
    && next.accounts.Keys == db.accounts.Keys
    && forall id | id in db.accounts ::
         next.accounts[id].owner == db.accounts[id].owner && next.accounts[id].name == db.accounts[id].name
  }

  /** The same accounts, up to their balances, and the same categories. */
  predicate SameNames(db: DB, next: DB) {
    && next.categories == db.categories && next.nextCategory == db.nextCategory
    && next.nextAccount == db.nextAccount && SameOwners(db, next)
  }

  /** What the operations take from outside: case folding, exact cents of an amount, the clock. */
  datatype Env = Env(lower: string -> string, exact: real -> Option<int>, now: int)

  const ZERO_TIME := 0

  /** What a write that fails or is refused reports. */
  const DATABASE_ERROR := "database error"

  predicate IsKind(kind: string) { kind == "income" || kind == "expense" }

  function FallbackName(value: string, fallback: string): string {
    if Trim(value) == "" then fallback else Trim(value)
  }

  // ----- balances -----

  /** What a transaction adds to its account's balance. */
  function Delta(kind: string, cents: int): int {
    if kind == "expense" then -cents else cents
  }

  /** UPDATE accounts SET balance_cents = balance_cents + delta WHERE id = account */
  function AddBalance(db: DB, account: nat, delta: int): DB {
    if account in db.accounts then
      var a := db.accounts[account];
      db.(accounts := db.accounts[account := a.(balance := a.balance + delta)])
    else db
  }

  function Apply(db: DB, t: Tx): DB { AddBalance(db, t.account, Delta(t.kind, t.cents)) }

  function Revert(db: DB, t: Tx): DB { AddBalance(db, t.account, -Delta(t.kind, t.cents)) }

  // ----- transactions -----

  /** validateRequest: the first rule a request breaks. */
  function Validate(env: Env, req: Request): Option<string> {
    if !IsKind(env.lower(Trim(req.kind))) then Some("type must be income or expense")
    else if req.amount <= 0.0 then Some("amount must be > 0")
    else if req.category == 0 then Some("categoryId is required")
    else if req.account == 0 then Some("accountId is required")
    else if !req.allowEmptyNote && Trim(req.note) == "" then Some("note is required")
    else None
  }

  /** Validation followed by the exact conversion to cents. */
  function RequestCents(env: Env, req: Request): Result<int> {
    match Validate(env, req)
    case Some(e) => Err(e)
    case None =>
      match env.exact(req.amount)
      case None => Err("amount must be a non-negative number with at most two decimal places")
      case Some(cents) => if cents <= 0 then Err("amount must be > 0") else Ok(cents)
  }

  /** ensureCategoryAndAccount: the first reference the user may not use. */
  function CheckRefs(db: DB, user: nat, kind: string, category: nat, account: nat): Option<string> {
    if category !in db.categories then Some("category not found")
    else if db.categories[category].kind != kind then Some("category type mismatch")
    else if !db.categories[category].isSystem && db.categories[category].owner != Some(user)
      then Some("category not accessible")
    else if account !in db.accounts || db.accounts[account].owner != user then Some("account not found")
    else None
  }

  function NewTx(env: Env, user: nat, req: Request, cents: int): Tx {
    Tx(user, req.kind, cents, req.category, req.account, Trim(req.note), Join(req.tags, ","),
       if req.occurredAt == ZERO_TIME then env.now else req.occurredAt, FallbackName(req.source, "manual"))
  }

  function Insert(db: DB, t: Tx): DB {
    db.(txs := db.txs[db.nextTx := t], nextTx := db.nextTx + 1)
  }

  /** createWithDB: check, insert the row, move the balance. */
  function CreateTx(env: Env, user: nat, req: Request, db: DB): Result<DB> {
    match RequestCents(env, req)
    case Err(e) => Err(e)
    case Ok(cents) =>
      match CheckRefs(db, user, req.kind, req.category, req.account)
      case Some(e) => Err(e)
      case None => var t := NewTx(env, user, req, cents); Ok(Apply(Insert(db, t), t))
  }

  /** CreateManyWithDB: one after the other, the first error ends it. */
  function CreateTxs(env: Env, user: nat, reqs: seq<Request>, db: DB): Result<DB> {
    if reqs == [] then Ok(db)
    else match CreateTx(env, user, reqs[0], db)
      case Err(e) => Err(e)
      case Ok(next) => CreateTxs(env, user, reqs[1..], next)
  }

  /** A transaction change read and checked, not yet committed. */
  datatype Pending = UpdateTx(id: nat, before: Tx, after: Tx) | DeleteTx(id: nat, before: Tx)

  /** The part of Update before its transaction. */
  function PrepareUpdate(env: Env, user: nat, id: nat, req: Request, db: DB): Result<Pending> {
    if id !in db.txs || db.txs[id].owner != user then Err("transaction not found")
    else match RequestCents(env, req)
      case Err(e) => Err(e)
      case Ok(cents) =>
        match CheckRefs(db, user, req.kind, req.category, req.account)
        case Some(e) => Err(e)
        case None =>
          var before := db.txs[id];
          Ok(UpdateTx(id, before, before.(
            kind := req.kind, cents := cents, category := req.category, account := req.account,
            note := Trim(req.note), tags := Join(req.tags, ","),
            occurredAt := if req.occurredAt == ZERO_TIME then before.occurredAt else req.occurredAt,
            source := FallbackName(req.source, before.source))))
  }

  /** The part of Delete before its transaction. */
  function PrepareDelete(user: nat, id: nat, db: DB): Result<Pending> {
    if id !in db.txs || db.txs[id].owner != user then Err("transaction not found")
    else Ok(DeleteTx(id, db.txs[id]))
  }

  /** What the transaction of Update or Delete writes; Save writes the row even when it is gone. */
  function Written(p: Pending, db: DB): DB {
    match p
    case UpdateTx(id, before, after) =>
      var next := Apply(Revert(db, before), after);
      next.(txs := next.txs[id := after])
    case DeleteTx(id, before) =>
      var next := Revert(db, before);
      next.(txs := next.txs - {id})
  }

  /** The foreign keys of a stored transaction refuse a row whose account or category is gone. */
  predicate Refused(p: Pending, db: DB) {
    p.UpdateTx? && !(p.after.account in db.accounts && p.after.category in db.categories)
  }

  /** The transaction of Update or Delete, rolled back when its row is refused. */
  function Commit(p: Pending, db: DB): DB {
    if Refused(p, db) then db else Written(p, db)
  }

  // ----- accounts and categories -----

  function CreateAccount(env: Env, user: nat, name: string, kind: string, balance: real, db: DB): Result<DB> {
    match env.exact(balance)
    case None => Err("amount must be a non-negative number with at most two decimal places")
    case Some(cents) =>
      if Trim(name) == "" then Err("name is required")
      else Ok(InsertAccount(db, Account(user, Trim(name), FallbackName(kind, "custom"), cents)))
  }

  function InsertAccount(db: DB, a: Account): DB {
    db.(accounts := db.accounts[db.nextAccount := a], nextAccount := db.nextAccount + 1)
  }

  /** The row an account update saves: balance as requested, empty name or type kept. */
  function PrepareAccount(env: Env, user: nat, id: nat, name: string, kind: string, balance: real,
                          db: DB): Result<Account> {
    if id !in db.accounts || db.accounts[id].owner != user then Err("account not found")
    else
      var a := db.accounts[id];
      match env.exact(balance)
      case None => Err("amount must be a non-negative number with at most two decimal places")
      case Some(cents) => Ok(Account(a.owner, FallbackName(name, a.name), FallbackName(kind, a.kind), cents))
  }

  function SaveAccount(db: DB, id: nat, a: Account): DB { db.(accounts := db.accounts[id := a]) }

  predicate AccountInUse(db: DB, user: nat, id: nat) {
    exists k | k in db.txs :: db.txs[k].owner == user && db.txs[k].account == id
  }

  predicate OwnsAccount(db: DB, user: nat, id: nat) { id in db.accounts && db.accounts[id].owner == user }

  /** Anybody's transaction refers to the account: the foreign key then refuses to delete it. */
  predicate AccountReferenced(db: DB, id: nat) { exists k | k in db.txs :: db.txs[k].account == id }

  /** DELETE FROM accounts WHERE id = id AND user_id = user, unless it is refused. */
  function DropAccount(db: DB, user: nat, id: nat): DB {
    if OwnsAccount(db, user, id) && !AccountReferenced(db, id) then db.(accounts := db.accounts - {id}) else db
  }

  function DeleteAccount(user: nat, id: nat, db: DB): Result<DB> {
    if AccountInUse(db, user, id) then Err("account in use by transactions")
    else if OwnsAccount(db, user, id) && AccountReferenced(db, id) then Err(DATABASE_ERROR)
    else Ok(DropAccount(db, user, id))
  }

  function CreateCategory(env: Env, user: nat, name: string, kind: string, db: DB): Result<DB> {
    var k := env.lower(Trim(kind));
    if !IsKind(k) then Err("type must be income or expense")
    else if Trim(name) == "" then Err("name is required")
    else Ok(InsertCategory(db, Category(Some(user), Trim(name), k, false)))
  }

  function InsertCategory(db: DB, c: Category): DB {
    db.(categories := db.categories[db.nextCategory := c], nextCategory := db.nextCategory + 1)
  }

  predicate OwnsCategory(db: DB, user: nat, id: nat) {
    id in db.categories && !db.categories[id].isSystem && db.categories[id].owner == Some(user)
  }

  /** The row a category update saves: an empty name and any type that is not income or expense are kept. */
  function PrepareCategory(env: Env, user: nat, id: nat, name: string, kind: string, db: DB): Result<Category> {
    if id !in db.categories then Err("category not found")
    else if !OwnsCategory(db, user, id) then Err("system category cannot be modified")
    else
      var c := db.categories[id];
      var k := env.lower(Trim(kind));
      Ok(c.(name := FallbackName(name, c.name), kind := if IsKind(k) then k else c.kind))
  }

  function SaveCategory(db: DB, id: nat, c: Category): DB { db.(categories := db.categories[id := c]) }

  function UpdateCategory(env: Env, user: nat, id: nat, name: string, kind: string, db: DB): Result<DB> {
    match PrepareCategory(env, user, id, name, kind, db)
    case Err(e) => Err(e)
    case Ok(c) => Ok(SaveCategory(db, id, c))
  }

  predicate CategoryInUse(db: DB, user: nat, id: nat) {
    exists k | k in db.txs :: db.txs[k].owner == user && db.txs[k].category == id
  }

  predicate CategoryReferenced(db: DB, id: nat) { exists k | k in db.txs :: db.txs[k].category == id }

  function DropCategory(db: DB, user: nat, id: nat): DB {
    if OwnsCategory(db, user, id) && !CategoryReferenced(db, id) then db.(categories := db.categories - {id}) else db
  }

  function DeleteCategory(user: nat, id: nat, db: DB): Result<DB> {
    if id !in db.categories then Err("category not found")
    else if !OwnsCategory(db, user, id) then Err("system category cannot be deleted")
    else if CategoryInUse(db, user, id) then Err("category in use by transactions")
    else if CategoryReferenced(db, id) then Err(DATABASE_ERROR)
    else Ok(DropCategory(db, user, id))
  }

  // ----- lookup by name -----

  predicate IsUserCategory(db: DB, user: nat, kind: string, name: string, id: nat) {
    id in db.categories && db.categories[id].name == name && db.categories[id].kind == kind
      && db.categories[id].owner == Some(user)
  }

  predicate IsSystemCategory(db: DB, kind: string, name: string, id: nat) {
    id in db.categories && db.categories[id].name == name && db.categories[id].kind == kind
      && db.categories[id].isSystem
  }

  // GORM's First: the lowest id, from k on, that the condition accepts.

  function FirstUserCategory(db: DB, user: nat, kind: string, name: string, k: nat): (r: Option<nat>)
    ensures r.Some? ==> k <= r.value < db.nextCategory && IsUserCategory(db, user, kind, name, r.value)
    ensures forall j :: k <= j < (if r.Some? then r.value else db.nextCategory) ==>
      !IsUserCategory(db, user, kind, name, j)
    decreases db.nextCategory - k
  {
    if k >= db.nextCategory then None
    else if IsUserCategory(db, user, kind, name, k) then Some(k)
    else FirstUserCategory(db, user, kind, name, k + 1)
  }

  function FirstSystemCategory(db: DB, kind: string, name: string, k: nat): (r: Option<nat>)
    ensures r.Some? ==> k <= r.value < db.nextCategory && IsSystemCategory(db, kind, name, r.value)
    ensures forall j :: k <= j < (if r.Some? then r.value else db.nextCategory) ==> !IsSystemCategory(db, kind, name, j)
    decreases db.nextCategory - k
  {
    if k >= db.nextCategory then None
    else if IsSystemCategory(db, kind, name, k) then Some(k)
    else FirstSystemCategory(db, kind, name, k + 1)
  }

  function FirstUserAccount(db: DB, user: nat, name: string, k: nat): (r: Option<nat>)
    ensures r.Some? ==> k <= r.value < db.nextAccount && IsUserAccount(db, user, name, r.value)
    ensures forall j :: k <= j < (if r.Some? then r.value else db.nextAccount) ==> !IsUserAccount(db, user, name, j)
    decreases db.nextAccount - k
  {
    if k >= db.nextAccount then None
    else if IsUserAccount(db, user, name, k) then Some(k)
    else FirstUserAccount(db, user, name, k + 1)
  }

  /** The user's category of that name and type, else the system's. */
  function FindCategory(db: DB, user: nat, kind: string, name: string): Option<nat> {
    var clean := Trim(name);
    if clean == "" then None
    else
      var mine := FirstUserCategory(db, user, kind, clean, 0);
      if mine.Some? then mine else FirstSystemCategory(db, kind, clean, 0)
  }

  /** The account name an import row stands for. */
  function AccountName(name: string): string { FallbackName(name, DEFAULT_ACCOUNT) }

  const DEFAULT_ACCOUNT := "\U{73B0}\U{91D1}"

  predicate IsUserAccount(db: DB, user: nat, name: string, id: nat) {
    id in db.accounts && db.accounts[id].owner == user && db.accounts[id].name == name
  }

  function FindAccount(db: DB, user: nat, name: string): Option<nat> {
    FirstUserAccount(db, user, AccountName(name), 0)
  }

  datatype Found = Found(db: DB, id: nat)

  function FindOrCreateCategory(user: nat, kind: string, name: string, db: DB): Result<Found> {
    if Trim(name) == "" then Err("empty category name")
    else match FindCategory(db, user, kind, name)
      case Some(id) => Ok(Found(db, id))
      case None => Ok(Found(InsertCategory(db, Category(Some(user), Trim(name), kind, false)), db.nextCategory))
  }

  function FindOrCreateAccount(user: nat, name: string, db: DB): Found {
    match FindAccount(db, user, name)
    case Some(id) => Found(db, id)
    case None => Found(InsertAccount(db, Account(user, AccountName(name), "custom", 0)), db.nextAccount)
  }
}
