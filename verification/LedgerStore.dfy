/**
 The ledger services over a mutable store.  `left` is how many more database writes
 succeed: a write after that fails, and the transaction it is in rolls back; so does one
 that the foreign keys of the transactions table refuse.
 */
module LedgerStore {
  import opened Common
  import opened Text
  import opened Ledger
  import LedgerIntegrity
  import LedgerMeaning

  /** A batch of one is the one. */
  lemma {:induction false} OneRequest(env: Env, user: nat, req: Request, db: DB)
    ensures CreateTxs(env, user, [req], db) == CreateTx(env, user, req, db)
  {
    assert [req][1..] == [];
  }

  class Store {
    var accounts: map<nat, Account>
    var categories: map<nat, Category>
    var txs: map<nat, Tx>
    var nextAccount: nat
    var nextCategory: nat
    var nextTx: nat
    var left: nat

    function Now(): DB
      reads this
    {
      DB(accounts, categories, txs, nextAccount, nextCategory, nextTx)
    }

    constructor (db: DB, left: nat)
      ensures Now() == db && this.left == left
    {
      accounts, categories, txs := db.accounts, db.categories, db.txs;
      nextAccount, nextCategory, nextTx := db.nextAccount, db.nextCategory, db.nextTx;
      this.left := left;
    }

    /** Puts the tables back as they were when the transaction began. */
    method Rollback(saved: DB)
      modifies this
      ensures Now() == saved && left == old(left)
    {
      accounts, categories, txs := saved.accounts, saved.categories, saved.txs;
      nextAccount, nextCategory, nextTx := saved.nextAccount, saved.nextCategory, saved.nextTx;
    }

    /** Whether the next database write succeeds. */
    method Write() returns (ok: bool)
      modifies this`left
      ensures ok == (old(left) > 0) && left == if ok then old(left) - 1 else 0
    {
      ok := left > 0;
      if ok { left := left - 1; }
    }

    method MoveBalance(account: nat, delta: int) returns (ok: bool)
      modifies this`left, this`accounts
      ensures ok == (old(left) > 0) && left == if ok then old(left) - 1 else 0
      ensures Now() == if ok then AddBalance(old(Now()), account, delta) else old(Now())
    {
      ok := Write();
      if ok && account in accounts {
        var a := accounts[account];
        accounts := accounts[account := a.(balance := a.balance + delta)];
      }
    }

    /** createWithDB, inside the caller's transaction: an error may leave the row inserted. */
    method CreateWithDB(env: Env, user: nat, req: Request) returns (r: Result<nat>)
      modifies this
      ensures r == match CreateTx(env, user, req, old(Now()))
        case Err(e) => Err(e)
        case Ok(_) => if old(left) >= 2 then Ok(old(nextTx)) else Err(DATABASE_ERROR)
      ensures r.Ok? ==> Now() == CreateTx(env, user, req, old(Now())).value && left == old(left) - 2
    {
      var cents := RequestCents(env, req);
      if cents.Err? { return Err(cents.error); }
      var refused := CheckRefs(Now(), user, req.kind, req.category, req.account);
      if refused.Some? { return Err(refused.value); }
      var t := NewTx(env, user, req, cents.value);
      var ok := Write();
      if !ok { return Err(DATABASE_ERROR); }
      var id := nextTx;
      txs, nextTx := txs[id := t], id + 1;
      ok := MoveBalance(t.account, Delta(t.kind, t.cents));
      if !ok { return Err(DATABASE_ERROR); }
      r := Ok(id);
    }

    /** Create: the row and the balance change together or not at all. */
    method Create(env: Env, user: nat, req: Request) returns (r: Result<nat>)
      modifies this
      ensures r == match CreateTx(env, user, req, old(Now()))
        case Err(e) => Err(e)
        case Ok(_) => if old(left) >= 2 then Ok(old(nextTx)) else Err(DATABASE_ERROR)
      ensures Now() == if r.Ok? then CreateTx(env, user, req, old(Now())).value else old(Now())
      ensures Now() ==
        LedgerIntegrity.Perform(if r.Ok? then LedgerIntegrity.Create(env, user, [req])
          else LedgerIntegrity.RolledBack, old(Now()))
      ensures var rules := LedgerMeaning.RequestRules(env, user, req, old(Now()));
        && (r.Ok? <==> LedgerMeaning.AllKept(rules) && old(left) >= 2)
        && (LedgerMeaning.AllKept(rules) || LedgerMeaning.Obeys(rules, r))
      ensures r.Ok? ==> r.value == old(nextTx) && LedgerMeaning.Created(env, user, req, old(Now()), Now())
    {
      LedgerMeaning.CreateMeans(env, user, req, Now());
      var saved := Now();
      r := CreateWithDB(env, user, req);
      if r.Err? { Rollback(saved); }
      OneRequest(env, user, req, saved);
    }

    /** CreateManyWithDB, inside the caller's transaction. */
    method CreateManyWithDB(env: Env, user: nat, reqs: seq<Request>) returns (r: Result<()>)
      modifies this
      ensures r.Ok? <==> CreateTxs(env, user, reqs, old(Now())).Ok? && old(left) >= 2 * |reqs|
      ensures r.Ok? ==> Now() == CreateTxs(env, user, reqs, old(Now())).value && left == old(left) - 2 * |reqs|
    {
      for i := 0 to |reqs|
        invariant left + 2 * i == old(left)
        invariant CreateTxs(env, user, reqs[i..], Now()) == CreateTxs(env, user, reqs, old(Now()))
      {
        assert reqs[i..][1..] == reqs[i + 1..];
        var one := CreateWithDB(env, user, reqs[i]);
        if one.Err? { return Err(one.error); }
      }
      r := Ok(());
    }

    /** CreateMany: one transaction for the whole batch. */
    method CreateMany(env: Env, user: nat, reqs: seq<Request>) returns (r: Result<()>)
      modifies this
      ensures r.Ok? <==> CreateTxs(env, user, reqs, old(Now())).Ok? && old(left) >= 2 * |reqs|
      ensures Now() == if r.Ok? then CreateTxs(env, user, reqs, old(Now())).value else old(Now())
      ensures Now() ==
        LedgerIntegrity.Perform(if r.Ok? then LedgerIntegrity.Create(env, user, reqs)
          else LedgerIntegrity.RolledBack, old(Now()))
    {
      if reqs == [] { return Ok(()); }
      var saved := Now();
      r := CreateManyWithDB(env, user, reqs);
      if r.Err? { Rollback(saved); }
    }

    /** The transaction of Update: revert the old effect, apply the new one, save the row. */
    method CommitUpdate(id: nat, before: Tx, after: Tx) returns (ok: bool)
      modifies this
      ensures ok <==> old(left) >= 3 && !Refused(UpdateTx(id, before, after), old(Now()))
      ensures Now() == if ok then Commit(UpdateTx(id, before, after), old(Now())) else old(Now())
    {
      var saved := Now();
      ok := MoveBalance(before.account, -Delta(before.kind, before.cents));
      if ok { ok := MoveBalance(after.account, Delta(after.kind, after.cents)); }
      if ok { ok := Write(); }
      if ok && after.account in accounts && after.category in categories {
        txs := txs[id := after];
      } else {
        ok := false;
        Rollback(saved);
      }
    }

    /** The transaction of Delete. */
    method CommitDelete(id: nat, before: Tx) returns (ok: bool)
      modifies this
      ensures ok <==> old(left) >= 2
      ensures Now() == if ok then Commit(DeleteTx(id, before), old(Now())) else old(Now())
    {
      var saved := Now();
      ok := MoveBalance(before.account, -Delta(before.kind, before.cents));
      if ok { ok := Write(); }
      if ok {
        txs := txs - {id};
      } else {
        Rollback(saved);
      }
    }

    /** Update when nothing else runs between its read and its transaction. */
    method Update(env: Env, user: nat, id: nat, req: Request) returns (r: Result<()>)
      modifies this
      ensures var p := PrepareUpdate(env, user, id, req, old(Now()));
        && r == (if p.Err? then Err(p.error) else if old(left) >= 3 then Ok(()) else Err(DATABASE_ERROR))
        && Now() == if r.Ok? then Commit(p.value, old(Now())) else old(Now())
      ensures Now() ==
        LedgerIntegrity.Perform(if r.Ok? then LedgerIntegrity.Update(env, user, id, req)
          else LedgerIntegrity.RolledBack, old(Now()))
      ensures var mine := id in old(txs) && old(txs[id]).owner == user;
        var rules := LedgerMeaning.RequestRules(env, user, req, old(Now()));
        && (r.Ok? <==> mine && LedgerMeaning.AllKept(rules) && old(left) >= 3)
        && (mine && !LedgerMeaning.AllKept(rules) ==> LedgerMeaning.Obeys(rules, r))
      ensures r.Ok? ==> id in old(txs) && LedgerMeaning.Updated(env, user, id, req, old(txs[id]), old(Now()), Now())
    {
      LedgerMeaning.UpdateMeans(env, user, id, req, Now(), Now());
      var p := PrepareUpdate(env, user, id, req, Now());
      if p.Err? { return Err(p.error); }
      var ok := CommitUpdate(id, p.value.before, p.value.after);
      r := if ok then Ok(()) else Err(DATABASE_ERROR);
    }

    /** Delete when nothing else runs between its read and its transaction. */
    method Delete(user: nat, id: nat) returns (r: Result<()>)
      modifies this
      ensures var p := PrepareDelete(user, id, old(Now()));
        && r == (if p.Err? then Err(p.error) else if old(left) >= 2 then Ok(()) else Err(DATABASE_ERROR))
        && Now() == if r.Ok? then Commit(p.value, old(Now())) else old(Now())
      ensures Now() ==
        LedgerIntegrity.Perform(if r.Ok? then LedgerIntegrity.Delete(user, id)
          else LedgerIntegrity.RolledBack, old(Now()))
      ensures r.Ok? <==> id in old(txs) && old(txs[id]).owner == user && old(left) >= 2
      ensures r.Ok? ==> id in old(txs) && LedgerMeaning.Deleted(id, old(txs[id]), old(Now()), Now())
    {
      LedgerMeaning.DeleteMeans(user, id, Now(), Now());
      var p := PrepareDelete(user, id, Now());
      if p.Err? { return Err(p.error); }
      var ok := CommitDelete(id, p.value.before);
      r := if ok then Ok(()) else Err(DATABASE_ERROR);
    }

    /** FindOrCreateCategoryWithDB */
    method FindOrCreateCategoryWithDB(user: nat, kind: string, name: string) returns (r: Result<nat>)
      modifies this
      ensures match FindOrCreateCategory(user, kind, name, old(Now()))
        case Err(e) => r == Err(e)
        case Ok(f) =>
          var writes := if FindCategory(old(Now()), user, kind, name).Some? then 0 else 1;
          && r == (if old(left) >= writes then Ok(f.id) else Err(DATABASE_ERROR))
          && (r.Ok? ==> Now() == f.db && left == old(left) - writes)
      ensures KeysBounded(old(Now())) && r.Ok? ==>
        if exists j :: LedgerMeaning.FindsCategory(old(Now()), user, kind, name, j)
        then Now() == old(Now()) && LedgerMeaning.FindsCategory(Now(), user, kind, name, r.value)
        else r.value == old(nextCategory) && Now() == old(Now()).(
          categories := old(categories)[old(nextCategory) := Category(Some(user), Trim(name), kind, false)],
          nextCategory := old(nextCategory) + 1)
    {
      if KeysBounded(Now()) { LedgerMeaning.FindOrCreateCategoryMeans(user, kind, name, Now()); }
      if Trim(name) == "" { return Err("empty category name"); }
      var found := FindCategory(Now(), user, kind, name);
      if found.Some? { return Ok(found.value); }
      var ok := Write();
      if !ok { return Err(DATABASE_ERROR); }
      var id := nextCategory;
      categories, nextCategory := categories[id := Category(Some(user), Trim(name), kind, false)], id + 1;
      r := Ok(id);
    }

    /** FindOrCreateAccountWithDB */
    method FindOrCreateAccountWithDB(user: nat, name: string) returns (r: Result<nat>)
      modifies this
      ensures var f := FindOrCreateAccount(user, name, old(Now()));
        var writes := if FindAccount(old(Now()), user, name).Some? then 0 else 1;
        && r == (if old(left) >= writes then Ok(f.id) else Err(DATABASE_ERROR))
        && (r.Ok? ==> Now() == f.db && left == old(left) - writes)
      ensures KeysBounded(old(Now())) && r.Ok? ==>
        if exists j :: LedgerMeaning.FindsAccount(old(Now()), user, name, j)
        then Now() == old(Now()) && LedgerMeaning.FindsAccount(Now(), user, name, r.value)
        else r.value == old(nextAccount) && Now() == old(Now()).(
          accounts := old(accounts)[old(nextAccount) :=
            Account(user, LedgerMeaning.Given(name, "\U{73B0}\U{91D1}"), "custom", 0)],
          nextAccount := old(nextAccount) + 1)
    {
      if KeysBounded(Now()) { LedgerMeaning.FindOrCreateAccountMeans(user, name, Now()); }
      var found := FindAccount(Now(), user, name);
      if found.Some? { return Ok(found.value); }
      var ok := Write();
      if !ok { return Err(DATABASE_ERROR); }
      var id := nextAccount;
      accounts, nextAccount := accounts[id := Account(user, AccountName(name), "custom", 0)], id + 1;
      r := Ok(id);
    }

    /** accounts.Create */
    method AddAccount(env: Env, user: nat, name: string, kind: string, balance: real) returns (r: Result<()>)
      modifies this
      ensures var next := CreateAccount(env, user, name, kind, balance, old(Now()));
        && r == (if next.Err? then Err(next.error) else if old(left) >= 1 then Ok(()) else Err(DATABASE_ERROR))
        && Now() == if r.Ok? then next.value else old(Now())
      ensures Now() ==
        LedgerIntegrity.Perform(if r.Ok? then LedgerIntegrity.NewAccount(env, user, name, kind, balance)
          else LedgerIntegrity.RolledBack, old(Now()))
      ensures var rules := LedgerMeaning.AccountRules(env, name, balance);
        && (r.Ok? <==> LedgerMeaning.AllKept(rules) && old(left) >= 1)
        && (LedgerMeaning.AllKept(rules) || LedgerMeaning.Obeys(rules, r))
      ensures r.Ok? ==> env.exact(balance).Some? && Now() == old(Now()).(
        accounts := old(accounts)[old(nextAccount) :=
          Account(user, Trim(name), LedgerMeaning.Given(kind, "custom"), env.exact(balance).value)],
        nextAccount := old(nextAccount) + 1)
    {
      LedgerMeaning.CreateAccountMeans(env, user, name, kind, balance, Now());
      var next := CreateAccount(env, user, name, kind, balance, Now());
      if next.Err? { return Err(next.error); }
      var ok := Write();
      if !ok { return Err(DATABASE_ERROR); }
      accounts, nextAccount := accounts[nextAccount := next.value.accounts[nextAccount]], nextAccount + 1;
      r := Ok(());
    }

    /** accounts.Update: the row read before, with the requested fields, is saved whole. */
    method UpdateAccount(env: Env, user: nat, id: nat, name: string, kind: string, balance: real)
      returns (r: Result<()>)
      modifies this
      ensures var a := PrepareAccount(env, user, id, name, kind, balance, old(Now()));
        && r == (if a.Err? then Err(a.error) else if old(left) >= 1 then Ok(()) else Err(DATABASE_ERROR))
        && Now() == if r.Ok? then SaveAccount(old(Now()), id, a.value) else old(Now())
      ensures Now() ==
        LedgerIntegrity.Perform(if r.Ok? then LedgerIntegrity.EditAccount(env, user, id, name, kind, balance)
          else LedgerIntegrity.RolledBack, old(Now()))
      ensures r.Ok? <==>
        id in old(accounts) && old(accounts[id]).owner == user && env.exact(balance).Some? && old(left) >= 1
      ensures r.Ok? ==>
        && id in old(accounts) && env.exact(balance).Some?
        && var was := old(accounts[id]);
          Now() == old(Now()).(accounts := old(accounts)[id := Account(user, LedgerMeaning.Given(name, was.name),
            LedgerMeaning.Given(kind, was.kind), env.exact(balance).value)])
    {
      LedgerMeaning.UpdateAccountMeans(env, user, id, name, kind, balance, Now(), Now());
      var a := PrepareAccount(env, user, id, name, kind, balance, Now());
      if a.Err? { return Err(a.error); }
      var ok := Write();
      if !ok { return Err(DATABASE_ERROR); }
      accounts := accounts[id := a.value];
      r := Ok(());
    }

    /** accounts.Delete */
    method RemoveAccount(user: nat, id: nat) returns (r: Result<()>)
      modifies this
      ensures var next := DeleteAccount(user, id, old(Now()));
        && r == (if next.Err? then Err(next.error) else if old(left) >= 1 then Ok(()) else Err(DATABASE_ERROR))
        && Now() == if r.Ok? then next.value else old(Now())
      ensures Now() ==
        LedgerIntegrity.Perform(if r.Ok? then LedgerIntegrity.RemoveAccount(user, id)
          else LedgerIntegrity.RolledBack, old(Now()))
    {
      if AccountInUse(Now(), user, id) { return Err("account in use by transactions"); }
      var ok := Write();
      var owned := OwnsAccount(Now(), user, id);
      if !ok || (owned && AccountReferenced(Now(), id)) { return Err(DATABASE_ERROR); }
      if owned { accounts := accounts - {id}; }
      r := Ok(());
    }

    /** categories.Create */
    method AddCategory(env: Env, user: nat, name: string, kind: string) returns (r: Result<()>)
      modifies this
      ensures var next := CreateCategory(env, user, name, kind, old(Now()));
        && r == (if next.Err? then Err(next.error) else if old(left) >= 1 then Ok(()) else Err(DATABASE_ERROR))
        && Now() == if r.Ok? then next.value else old(Now())
      ensures Now() ==
        LedgerIntegrity.Perform(if r.Ok? then LedgerIntegrity.NewCategory(env, user, name, kind)
          else LedgerIntegrity.RolledBack, old(Now()))
      ensures var rules := LedgerMeaning.CategoryRules(env, name, kind);
        && (r.Ok? <==> LedgerMeaning.AllKept(rules) && old(left) >= 1)
        && (LedgerMeaning.AllKept(rules) || LedgerMeaning.Obeys(rules, r))
      ensures r.Ok? ==> Now() == old(Now()).(
        categories := old(categories)[old(nextCategory) :=
          Category(Some(user), Trim(name), env.lower(Trim(kind)), false)],
        nextCategory := old(nextCategory) + 1)
    {
      LedgerMeaning.CreateCategoryMeans(env, user, name, kind, Now());
      var k := env.lower(Trim(kind));
      if !IsKind(k) { return Err("type must be income or expense"); }
      if Trim(name) == "" { return Err("name is required"); }
      var ok := Write();
      if !ok { return Err(DATABASE_ERROR); }
      categories, nextCategory :=
        categories[nextCategory := Category(Some(user), Trim(name), k, false)], nextCategory + 1;
      r := Ok(());
    }

    /** categories.Update */
    method ChangeCategory(env: Env, user: nat, id: nat, name: string, kind: string) returns (r: Result<()>)
      modifies this
      ensures var next := UpdateCategory(env, user, id, name, kind, old(Now()));
        && r == (if next.Err? then Err(next.error) else if old(left) >= 1 then Ok(()) else Err(DATABASE_ERROR))
        && Now() == if r.Ok? then next.value else old(Now())
      ensures Now() ==
        LedgerIntegrity.Perform(if r.Ok? then LedgerIntegrity.EditCategory(env, user, id, name, kind)
          else LedgerIntegrity.RolledBack, old(Now()))
    {
      var c := PrepareCategory(env, user, id, name, kind, Now());
      if c.Err? { return Err(c.error); }
      var ok := Write();
      if !ok { return Err(DATABASE_ERROR); }
      categories := categories[id := c.value];
      r := Ok(());
    }

    /** categories.Delete */
    method RemoveCategory(user: nat, id: nat) returns (r: Result<()>)
      modifies this
      ensures var next := DeleteCategory(user, id, old(Now()));
        && r == (if next.Err? then Err(next.error) else if old(left) >= 1 then Ok(()) else Err(DATABASE_ERROR))
        && Now() == if r.Ok? then next.value else old(Now())
      ensures Now() ==
        LedgerIntegrity.Perform(if r.Ok? then LedgerIntegrity.RemoveCategory(user, id)
          else LedgerIntegrity.RolledBack, old(Now()))
    {
      if id !in categories { return Err("category not found"); }
      if !OwnsCategory(Now(), user, id) { return Err("system category cannot be deleted"); }
      if CategoryInUse(Now(), user, id) { return Err("category in use by transactions"); }
      var ok := Write();
      if !ok || CategoryReferenced(Now(), id) { return Err(DATABASE_ERROR); }
      categories := categories - {id};
      r := Ok(());
    }
  }
}
