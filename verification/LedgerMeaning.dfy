/**
 What the ledger's services promise of the tables, said of the request and the rows alone: when
 a call succeeds, what it reports otherwise, and what every row and balance is afterwards.
 */
module LedgerMeaning {
  import opened Common
  import opened Text
  import opened Ledger

  /** A rule that a call has to keep, and what breaking it reports. */
  datatype Rule = Rule(kept: bool, error: string)

  predicate AllKept(rules: seq<Rule>) { forall k :: 0 <= k < |rules| ==> rules[k].kept }

  /** `error` is what the first broken rule reports. */
  predicate Reports(rules: seq<Rule>, error: string) {
    exists k :: 0 <= k < |rules| && rules[k] == Rule(false, error) && AllKept(rules[..k])
  }

  /** A call succeeds exactly when all rules are kept, and otherwise reports the first broken one. */
  predicate Obeys<T>(rules: seq<Rule>, r: Result<T>) {
    if AllKept(rules) then r.Ok? else r.Err? && Reports(rules, r.error)
  }

  lemma {:induction false} ReportsAt(rules: seq<Rule>, k: nat)
    requires k < |rules| && !rules[k].kept && forall j :: 0 <= j < k ==> rules[j].kept
    ensures !AllKept(rules) && Reports(rules, rules[k].error)
  {
    assert rules[k] == Rule(false, rules[k].error);
    assert AllKept(rules[..k]);
  }

  const INEXACT := "amount must be a non-negative number with at most two decimal places"

  /** A name or a source: what is given without surrounding space, or the default if nothing is. */
  function Given(value: string, default: string): string { if Blank(value) then default else Trim(value) }

  predicate OfKind(kind: string) { kind in ["income", "expense"] }

  // ----- transactions -----

  /** The rules for the fields of a request, in order. */
  function FieldRules(env: Env, req: Request): seq<Rule> {
    [Rule(OfKind(env.lower(Trim(req.kind))), "type must be income or expense"),
     Rule(req.amount > 0.0, "amount must be > 0"),
     Rule(req.category > 0, "categoryId is required"),
     Rule(req.account > 0, "accountId is required"),
     Rule(req.allowEmptyNote || !Blank(req.note), "note is required"),
     Rule(env.exact(req.amount).Some?, INEXACT),
     Rule(env.exact(req.amount).Some? && env.exact(req.amount).value > 0, "amount must be > 0")]
  }

  /** The rules for what it refers to, in order. */
  function ReferenceRules(db: DB, user: nat, kind: string, c: nat, a: nat): seq<Rule> {
    [Rule(c in db.categories, "category not found"),
     Rule(c in db.categories && db.categories[c].kind == kind, "category type mismatch"),
     Rule(c in db.categories && (db.categories[c].isSystem || db.categories[c].owner == Some(user)),
          "category not accessible"),
     Rule(a in db.accounts && db.accounts[a].owner == user, "account not found")]
  }

  /** The rules for writing a transaction, in order. */
  function RequestRules(env: Env, user: nat, req: Request, db: DB): seq<Rule> {
    FieldRules(env, req) + ReferenceRules(db, user, req.kind, req.category, req.account)
  }

  /** The row holds what the user's request asks for; a zero time and a missing source take the given ones. */
  predicate Holds(env: Env, user: nat, req: Request, time: int, source: string, t: Tx) {
    && t.owner == user && t.kind == req.kind && env.exact(req.amount) == Some(t.cents)
    && t.category == req.category && t.account == req.account
    && t.note == Trim(req.note) && t.tags == Join(req.tags, ",")
    && t.occurredAt == (if req.occurredAt == 0 then time else req.occurredAt)
    && t.source == Given(req.source, source)
  }

  /** What a row is worth to account a: expenses count against it. */
  function Worth(t: Option<Tx>, a: nat): int {
    if t.None? || t.value.account != a then 0
    else if t.value.kind == "expense" then -t.value.cents
    else t.value.cents
  }

  /** Every account gains what the new row is worth to it less what the old one was; nothing else of it changes. */
  ghost predicate Rebalanced(db: DB, next: DB, gone: Option<Tx>, come: Option<Tx>) {
    && next.accounts.Keys == db.accounts.Keys
    && (forall a :: a in db.accounts ==>
          next.accounts[a] == db.accounts[a].(balance := db.accounts[a].balance + Worth(come, a) - Worth(gone, a)))
    && next.categories == db.categories
    && next.nextAccount == db.nextAccount && next.nextCategory == db.nextCategory
  }

  /** No row but `id` changes. */
  ghost predicate OtherRowsStay(db: DB, next: DB, id: nat) {
    forall k :: k != id ==> (k in next.txs <==> k in db.txs) && (k in db.txs ==> next.txs[k] == db.txs[k])
  }

  ghost predicate Created(env: Env, user: nat, req: Request, db: DB, next: DB) {
    var id := db.nextTx;
    && next.nextTx == id + 1 && id in next.txs && OtherRowsStay(db, next, id)
    && Holds(env, user, req, env.now, "manual", next.txs[id])
    && Rebalanced(db, next, None, Some(next.txs[id]))
  }

  /** The update of a row to a request, from the row that was read. */
  ghost predicate Updated(env: Env, user: nat, id: nat, req: Request, was: Tx, db: DB, next: DB) {
    && next.nextTx == db.nextTx && id in next.txs && OtherRowsStay(db, next, id)
    && Holds(env, user, req, was.occurredAt, was.source, next.txs[id])
    && Rebalanced(db, next, Some(was), Some(next.txs[id]))
  }

  ghost predicate Deleted(id: nat, was: Tx, db: DB, next: DB) {
    && next.nextTx == db.nextTx && id !in next.txs && OtherRowsStay(db, next, id)
    && Rebalanced(db, next, Some(was), None)
  }

  /** What the checks of a request come to. */
  function Checked(env: Env, user: nat, req: Request, db: DB): Result<()> {
    if RequestCents(env, req).Err? then Err(RequestCents(env, req).error)
    else match CheckRefs(db, user, req.kind, req.category, req.account)
      case Some(e) => Err(e)
      case None => Ok(())
  }

  lemma {:induction false} RulesOfFields(env: Env, req: Request)
    ensures Obeys(FieldRules(env, req), RequestCents(env, req))
  {
    var rules := FieldRules(env, req);
    TrimBlank(req.note);
    if RequestCents(env, req).Err? {
      var k := if !rules[0].kept then 0 else if !rules[1].kept then 1 else if !rules[2].kept then 2
        else if !rules[3].kept then 3 else if !rules[4].kept then 4 else if !rules[5].kept then 5 else 6;
      ReportsAt(rules, k);
    }
  }

  function Found(error: Option<string>): Result<()> { if error.Some? then Err(error.value) else Ok(()) }

  lemma {:induction false} RulesOfReferences(db: DB, user: nat, kind: string, c: nat, a: nat)
    ensures Obeys(ReferenceRules(db, user, kind, c, a), Found(CheckRefs(db, user, kind, c, a)))
  {
    var rules := ReferenceRules(db, user, kind, c, a);
    if CheckRefs(db, user, kind, c, a).Some? {
      var k := if !rules[0].kept then 0 else if !rules[1].kept then 1 else if !rules[2].kept then 2 else 3;
      ReportsAt(rules, k);
    }
  }

  /** More rules are asked after the first ones are kept. */
  lemma {:induction false} RulesAppend(first: seq<Rule>, more: seq<Rule>)
    ensures AllKept(first + more) <==> AllKept(first) && AllKept(more)
    ensures forall e :: Reports(first, e) ==> Reports(first + more, e)
    ensures AllKept(first) ==> forall e :: Reports(more, e) ==> Reports(first + more, e)
  {
    var all := first + more;
    assert AllKept(all) ==> AllKept(first) && AllKept(more) by {
      assert forall k :: 0 <= k < |first| ==> all[k] == first[k];
      assert forall k :: 0 <= k < |more| ==> all[|first| + k] == more[k];
    }
    forall e | Reports(first, e) ensures Reports(all, e) {
      var k :| 0 <= k < |first| && first[k] == Rule(false, e) && AllKept(first[..k]);
      assert all[..k] == first[..k] && all[k] == first[k];
    }
    forall e | AllKept(first) && Reports(more, e) ensures Reports(all, e) {
      var k :| 0 <= k < |more| && more[k] == Rule(false, e) && AllKept(more[..k]);
      assert all[..|first| + k] == first + more[..k] && all[|first| + k] == more[k];
    }
  }

  lemma {:induction false} RulesOfRequest(env: Env, user: nat, req: Request, db: DB)
    ensures Obeys(RequestRules(env, user, req, db), Checked(env, user, req, db))
  {
    RulesOfFields(env, req);
    RulesOfReferences(db, user, req.kind, req.category, req.account);
    RulesAppend(FieldRules(env, req), ReferenceRules(db, user, req.kind, req.category, req.account));
  }

  lemma {:induction false} GivenName(value: string, default: string)
    ensures FallbackName(value, default) == Given(value, default)
  {
    TrimBlank(value);
  }

  lemma {:induction false} BalanceAdded(db: DB, account: nat, delta: int)
    ensures var next := AddBalance(db, account, delta);
      && next == db.(accounts := next.accounts) && next.accounts.Keys == db.accounts.Keys
      && forall a :: a in db.accounts ==>
        next.accounts[a] == db.accounts[a].(balance := db.accounts[a].balance + if a == account then delta else 0)
  {
  }

  lemma {:induction false} InsertMeans(db: DB, t: Tx)
    ensures var next := Apply(Insert(db, t), t);
      && next.nextTx == db.nextTx + 1 && next.txs == db.txs[db.nextTx := t] && Rebalanced(db, next, None, Some(t))
  {
    BalanceAdded(Insert(db, t), t.account, Delta(t.kind, t.cents));
  }

  lemma {:induction false} NewTxHolds(env: Env, user: nat, req: Request, cents: int)
    requires env.exact(req.amount) == Some(cents)
    ensures Holds(env, user, req, env.now, "manual", NewTx(env, user, req, cents))
  {
    GivenName(req.source, "manual");
  }

  /** A transaction is created exactly when its request keeps every rule, as the row it asks for. */
  lemma {:induction false} CreateMeans(env: Env, user: nat, req: Request, db: DB)
    ensures Obeys(RequestRules(env, user, req, db), CreateTx(env, user, req, db))
    ensures CreateTx(env, user, req, db).Ok? ==> Created(env, user, req, db, CreateTx(env, user, req, db).value)
  {
    RulesOfRequest(env, user, req, db);
    if CreateTx(env, user, req, db).Ok? {
      var cents := RequestCents(env, req).value;
      NewTxHolds(env, user, req, cents);
      InsertMeans(db, NewTx(env, user, req, cents));
    }
  }

  lemma {:induction false} PendingHolds(env: Env, user: nat, id: nat, req: Request, db: DB)
    requires id in db.txs && db.txs[id].owner == user
    ensures var p := PrepareUpdate(env, user, id, req, db);
      && Obeys(RequestRules(env, user, req, db), p)
      && (p.Ok? ==>
            && p.value.UpdateTx? && p.value.id == id && p.value.before == db.txs[id]
            && Holds(env, user, req, db.txs[id].occurredAt, db.txs[id].source, p.value.after))
  {
    RulesOfRequest(env, user, req, db);
    GivenName(req.source, db.txs[id].source);
  }

  lemma {:induction false} BalanceAt(db: DB, account: nat, delta: int, a: nat)
    requires a in db.accounts
    ensures var next := AddBalance(db, account, delta);
      && a in next.accounts
      && next.accounts[a] == db.accounts[a].(balance := db.accounts[a].balance + if a == account then delta else 0)
  {
  }

  lemma {:induction false} RewrittenAt(db: DB, before: Tx, after: Tx, a: nat)
    requires a in db.accounts
    ensures var next := Apply(Revert(db, before), after);
      && a in next.accounts
      && next.accounts[a] ==
        db.accounts[a].(balance := db.accounts[a].balance + Worth(Some(after), a) - Worth(Some(before), a))
  {
    BalanceAt(db, before.account, -Delta(before.kind, before.cents), a);
    BalanceAt(Revert(db, before), after.account, Delta(after.kind, after.cents), a);
  }

  lemma {:induction false} BalanceKeys(db: DB, account: nat, delta: int)
    ensures var next := AddBalance(db, account, delta);
      next == db.(accounts := next.accounts) && next.accounts.Keys == db.accounts.Keys
  {
  }

  lemma {:induction false} BalanceRewritten(db: DB, before: Tx, after: Tx)
    ensures var next := Apply(Revert(db, before), after);
      && next == db.(accounts := next.accounts) && Rebalanced(db, next, Some(before), Some(after))
  {
    BalanceKeys(db, before.account, -Delta(before.kind, before.cents));
    BalanceKeys(Revert(db, before), after.account, Delta(after.kind, after.cents));
    forall a | a in db.accounts
      ensures Apply(Revert(db, before), after).accounts[a] ==
        db.accounts[a].(balance := db.accounts[a].balance + Worth(Some(after), a) - Worth(Some(before), a))
    {
      RewrittenAt(db, before, after, a);
    }
  }

  lemma {:induction false} WrittenMeans(id: nat, before: Tx, after: Tx, db: DB)
    ensures var next := Written(UpdateTx(id, before, after), db);
      && next.nextTx == db.nextTx && next.txs == db.txs[id := after]
      && Rebalanced(db, next, Some(before), Some(after))
  {
    BalanceRewritten(db, before, after);
  }

  /** An update reads the user's row, keeps the same rules, and writes what the request asks for, also
      when other events come before its commit; unless the row is refused. */
  lemma {:induction false} UpdateMeans(env: Env, user: nat, id: nat, req: Request, db: DB, later: DB)
    ensures var p := PrepareUpdate(env, user, id, req, db);
      if !(id in db.txs && db.txs[id].owner == user) then p == Err("transaction not found")
      else
        && Obeys(RequestRules(env, user, req, db), p)
        && (p.Ok? ==>
              if req.account in later.accounts && req.category in later.categories
              then Updated(env, user, id, req, db.txs[id], later, Commit(p.value, later))
              else Commit(p.value, later) == later)
  {
    if id in db.txs && db.txs[id].owner == user {
      PendingHolds(env, user, id, req, db);
      var p := PrepareUpdate(env, user, id, req, db);
      if p.Ok? { WrittenMeans(id, p.value.before, p.value.after, later); }
    }
  }

  lemma {:induction false} DeleteMeans(user: nat, id: nat, db: DB, later: DB)
    ensures var p := PrepareDelete(user, id, db);
      if !(id in db.txs && db.txs[id].owner == user) then p == Err("transaction not found")
      else p.Ok? && Deleted(id, db.txs[id], later, Commit(p.value, later))
  {
    if id in db.txs {
      var t := db.txs[id];
      BalanceAdded(later, t.account, -Delta(t.kind, t.cents));
    }
  }

  // ----- accounts -----

  function AccountRules(env: Env, name: string, balance: real): seq<Rule> {
    [Rule(env.exact(balance).Some?, INEXACT), Rule(!Blank(name), "name is required")]
  }

  lemma {:induction false} CreateAccountMeans(env: Env, user: nat, name: string, kind: string, balance: real, db: DB)
    ensures var r := CreateAccount(env, user, name, kind, balance, db);
      && Obeys(AccountRules(env, name, balance), r)
      && (r.Ok? ==> r.value == db.(
            accounts := db.accounts[db.nextAccount :=
              Account(user, Trim(name), Given(kind, "custom"), env.exact(balance).value)],
            nextAccount := db.nextAccount + 1))
  {
    TrimBlank(name);
    GivenName(kind, "custom");
    TwoRules(AccountRules(env, name, balance));
  }

  /** Of two rules, the second is asked when the first is kept. */
  lemma {:induction false} TwoRules(rules: seq<Rule>)
    requires |rules| == 2
    ensures AllKept(rules) <==> rules[0].kept && rules[1].kept
    ensures !rules[0].kept ==> Reports(rules, rules[0].error)
    ensures rules[0].kept && !rules[1].kept ==> Reports(rules, rules[1].error)
  {
    if !rules[0].kept { ReportsAt(rules, 0); } else if !rules[1].kept { ReportsAt(rules, 1); }
  }

  /** The row that an update of an account writes over whatever is there then: the owner's, with the
      balance that was asked for, and the old name and type where none were given. */
  lemma {:induction false} UpdateAccountMeans(env: Env, user: nat, id: nat, name: string, kind: string, balance: real,
                                              db: DB, later: DB)
    ensures var a := PrepareAccount(env, user, id, name, kind, balance, db);
      if !(id in db.accounts && db.accounts[id].owner == user) then a == Err("account not found")
      else if env.exact(balance).None? then a == Err(INEXACT)
      else a.Ok? && SaveAccount(later, id, a.value) == later.(accounts := later.accounts[id :=
        Account(user, Given(name, db.accounts[id].name), Given(kind, db.accounts[id].kind), env.exact(balance).value)])
  {
    if id in db.accounts {
      GivenName(name, db.accounts[id].name);
      GivenName(kind, db.accounts[id].kind);
    }
  }

  /** Some transaction of the user is on the account. */
  ghost predicate UsesAccount(db: DB, user: nat, id: nat) {
    exists k :: k in db.txs && db.txs[k].owner == user && db.txs[k].account == id
  }

  /** An account goes when it is the user's and no transaction is on it; deleting none is no error. */
  lemma {:induction false} DeleteAccountMeans(user: nat, id: nat, db: DB)
    ensures var r := DeleteAccount(user, id, db);
      var mine := id in db.accounts && db.accounts[id].owner == user;
      if UsesAccount(db, user, id) then r == Err("account in use by transactions")
      else if !mine then r == Ok(db)
      else if exists k :: k in db.txs && db.txs[k].account == id then r == Err(DATABASE_ERROR)
      else r == Ok(db.(accounts := db.accounts - {id}))
  {
  }

  // ----- categories -----

  function CategoryRules(env: Env, name: string, kind: string): seq<Rule> {
    [Rule(OfKind(env.lower(Trim(kind))), "type must be income or expense"), Rule(!Blank(name), "name is required")]
  }

  lemma {:induction false} CreateCategoryMeans(env: Env, user: nat, name: string, kind: string, db: DB)
    ensures var r := CreateCategory(env, user, name, kind, db);
      && Obeys(CategoryRules(env, name, kind), r)
      && (r.Ok? ==> r.value == db.(
            categories := db.categories[db.nextCategory :=
              Category(Some(user), Trim(name), env.lower(Trim(kind)), false)],
            nextCategory := db.nextCategory + 1))
  {
    TrimBlank(name);
    TwoRules(CategoryRules(env, name, kind));
  }

  /** The rules for touching a category: it exists, and is the user's own. */
  function OwnRules(db: DB, user: nat, id: nat, refusal: string): seq<Rule> {
    [Rule(id in db.categories, "category not found"),
     Rule(id in db.categories && !db.categories[id].isSystem && db.categories[id].owner == Some(user), refusal)]
  }

  lemma {:induction false} UpdateCategoryMeans(env: Env, user: nat, id: nat, name: string, kind: string, db: DB)
    ensures var r := UpdateCategory(env, user, id, name, kind, db);
      && Obeys(OwnRules(db, user, id, "system category cannot be modified"), r)
      && (r.Ok? ==>
            && id in db.categories
            && var k := env.lower(Trim(kind)); var was := db.categories[id];
              r.value == db.(categories := db.categories[id :=
                Category(Some(user), Given(name, was.name), if OfKind(k) then k else was.kind, false)]))
  {
    TwoRules(OwnRules(db, user, id, "system category cannot be modified"));
    if id in db.categories { GivenName(name, db.categories[id].name); }
  }

  ghost predicate UsesCategory(db: DB, user: nat, id: nat) {
    exists k :: k in db.txs && db.txs[k].owner == user && db.txs[k].category == id
  }

  lemma {:induction false} DeleteCategoryMeans(user: nat, id: nat, db: DB)
    ensures var r := DeleteCategory(user, id, db);
      var rules := OwnRules(db, user, id, "system category cannot be deleted");
      if !AllKept(rules) then Obeys(rules, r)
      else if UsesCategory(db, user, id) then r == Err("category in use by transactions")
      else if exists k :: k in db.txs && db.txs[k].category == id then r == Err(DATABASE_ERROR)
      else r == Ok(db.(categories := db.categories - {id}))
  {
    TwoRules(OwnRules(db, user, id, "system category cannot be deleted"));
  }

  // ----- lookup by name -----

  /** The user's own category of that type, with the name that is given. */
  predicate OwnNamed(db: DB, user: nat, kind: string, name: string, id: nat) {
    && id in db.categories && db.categories[id].name == Trim(name) && db.categories[id].kind == kind
    && db.categories[id].owner == Some(user)
  }

  predicate SystemNamed(db: DB, kind: string, name: string, id: nat) {
    && id in db.categories && db.categories[id].name == Trim(name) && db.categories[id].kind == kind
    && db.categories[id].isSystem
  }

  predicate AccountNamed(db: DB, user: nat, name: string, id: nat) {
    && id in db.accounts && db.accounts[id].owner == user
    && db.accounts[id].name == Given(name, "\U{73B0}\U{91D1}")
  }

  /** A name finds the user's own category with the least key, or else the system's. */
  ghost predicate FindsCategory(db: DB, user: nat, kind: string, name: string, id: nat) {
    && !Blank(name)
    && if exists j :: OwnNamed(db, user, kind, name, j)
       then OwnNamed(db, user, kind, name, id) && forall j :: OwnNamed(db, user, kind, name, j) ==> id <= j
       else SystemNamed(db, kind, name, id) && forall j :: SystemNamed(db, kind, name, j) ==> id <= j
  }

  ghost predicate FindsAccount(db: DB, user: nat, name: string, id: nat) {
    AccountNamed(db, user, name, id) && forall j :: AccountNamed(db, user, name, j) ==> id <= j
  }

  lemma {:induction false} FirstOwn(db: DB, user: nat, kind: string, name: string)
    requires KeysBounded(db)
    ensures var r := FirstUserCategory(db, user, kind, Trim(name), 0);
      && (r.None? ==> forall j :: !OwnNamed(db, user, kind, name, j))
      && (r.Some? ==>
            && OwnNamed(db, user, kind, name, r.value)
            && forall j :: OwnNamed(db, user, kind, name, j) ==> r.value <= j)
  {
    forall j | OwnNamed(db, user, kind, name, j) ensures IsUserCategory(db, user, kind, Trim(name), j) {
    }
  }

  lemma {:induction false} FirstSystem(db: DB, kind: string, name: string)
    requires KeysBounded(db)
    ensures var r := FirstSystemCategory(db, kind, Trim(name), 0);
      && (r.None? ==> forall j :: !SystemNamed(db, kind, name, j))
      && (r.Some? ==>
            && SystemNamed(db, kind, name, r.value)
            && forall j :: SystemNamed(db, kind, name, j) ==> r.value <= j)
  {
    forall j | SystemNamed(db, kind, name, j) ensures IsSystemCategory(db, kind, Trim(name), j) {
    }
  }

  lemma {:induction false} FindCategoryMeans(db: DB, user: nat, kind: string, name: string)
    requires KeysBounded(db)
    ensures var r := FindCategory(db, user, kind, name);
      if r.Some? then FindsCategory(db, user, kind, name, r.value)
      else forall j :: !FindsCategory(db, user, kind, name, j)
  {
    TrimBlank(name);
    if !Blank(name) {
      FirstOwn(db, user, kind, name);
      FirstSystem(db, kind, name);
    }
  }

  lemma {:induction false} FindAccountMeans(db: DB, user: nat, name: string)
    requires KeysBounded(db)
    ensures var r := FindAccount(db, user, name);
      if r.Some? then FindsAccount(db, user, name, r.value) else forall j :: !FindsAccount(db, user, name, j)
  {
    GivenName(name, DEFAULT_ACCOUNT);
    forall j | AccountNamed(db, user, name, j) ensures IsUserAccount(db, user, AccountName(name), j) {
    }
  }

  /** A category of a given name is found, or made as the user's own. */
  lemma {:induction false} FindOrCreateCategoryMeans(user: nat, kind: string, name: string, db: DB)
    requires KeysBounded(db)
    ensures var r := FindOrCreateCategory(user, kind, name, db);
      if Blank(name) then r == Err("empty category name")
      else r.Ok? && if exists j :: FindsCategory(db, user, kind, name, j)
        then r.value.db == db && FindsCategory(db, user, kind, name, r.value.id)
        else
          && r.value.id == db.nextCategory
          && r.value.db == db.(
               categories := db.categories[db.nextCategory := Category(Some(user), Trim(name), kind, false)],
               nextCategory := db.nextCategory + 1)
  {
    TrimBlank(name);
    FindCategoryMeans(db, user, kind, name);
  }

  lemma {:induction false} FindOrCreateAccountMeans(user: nat, name: string, db: DB)
    requires KeysBounded(db)
    ensures var f := FindOrCreateAccount(user, name, db);
      if exists j :: FindsAccount(db, user, name, j) then f.db == db && FindsAccount(db, user, name, f.id)
      else
        && f.id == db.nextAccount
        && f.db == db.(
             accounts := db.accounts[db.nextAccount := Account(user, Given(name, "\U{73B0}\U{91D1}"), "custom", 0)],
             nextAccount := db.nextAccount + 1)
  {
    GivenName(name, DEFAULT_ACCOUNT);
    FindAccountMeans(db, user, name);
  }
}
