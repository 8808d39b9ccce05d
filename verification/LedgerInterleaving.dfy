/**
 Referential integrity over runs in which any events come between the reads of a request and
 its commit, and how the serial calls are such runs.
 */
module LedgerInterleaving {
  import opened Common
  import opened Text
  import opened Ledger
  import opened LedgerRuns
  import opened LedgerIntegrity

  // ----- what requests in flight hold -----

  /** A saved account row belongs to the owner of the account, while there is one. */
  predicate RowFits(r: SavedRow, db: DB) {
    r.id < db.nextAccount && (r.id in db.accounts ==> db.accounts[r.id].owner == r.row.owner)
  }

  predicate LabelFits(l: SavedLabel, db: DB) {
    && l.id < db.nextCategory && IsKind(l.row.kind)
    && (l.id in db.categories ==>
          db.categories[l.id].owner == l.row.owner && db.categories[l.id].isSystem == l.row.isSystem)
  }

  predicate SlotsFit(w: World) {
    && (forall s | s in w.pending :: Readable(w.pending[s], w.db))
    && (forall s | s in w.rows :: RowFits(w.rows[s], w.db))
    && (forall s | s in w.labels :: LabelFits(w.labels[s], w.db))
  }

  /** Rows saved of one account have one owner, also with the updates that move onto it; so have labels
      of one category. */
  predicate SlotsAgree(w: World) {
    && (forall s, t | s in w.pending && t in w.rows :: w.pending[s].UpdateTx? ==>
          w.pending[s].after.account == w.rows[t].id ==> w.rows[t].row.owner == w.pending[s].after.owner)
    && (forall s, t | s in w.pending && t in w.labels :: w.pending[s].UpdateTx? ==>
          w.pending[s].after.category == w.labels[t].id ==>
            w.labels[t].row.isSystem || w.labels[t].row.owner == Some(w.pending[s].after.owner))
    && (forall s, t | s in w.rows && t in w.rows ::
          w.rows[s].id == w.rows[t].id ==> w.rows[s].row.owner == w.rows[t].row.owner)
    && (forall s, t | s in w.labels && t in w.labels :: w.labels[s].id == w.labels[t].id ==>
          w.labels[s].row.owner == w.labels[t].row.owner && w.labels[s].row.isSystem == w.labels[t].row.isSystem)
  }

  predicate Ready(w: World) { Integrity(w.db) && SlotsFit(w) && SlotsAgree(w) }

  /** No event gives a key to another owner. */
  predicate OwnersStay(db: DB, next: DB) {
    && db.nextAccount <= next.nextAccount && db.nextCategory <= next.nextCategory && db.nextTx <= next.nextTx
    && (forall id | id in next.accounts && id < db.nextAccount ::
          id in db.accounts && next.accounts[id].owner == db.accounts[id].owner)
    && (forall id | id in next.categories && id < db.nextCategory ::
          && id in db.categories && next.categories[id].owner == db.categories[id].owner
          && next.categories[id].isSystem == db.categories[id].isSystem)
  }

  lemma {:induction false} SlotsStay(w: World, next: DB)
    requires SlotsFit(w) && OwnersStay(w.db, next)
    ensures SlotsFit(w.(db := next))
  {
  }

  // ----- transactions -----

  lemma {:induction false} CreateManyShape(env: Env, user: nat, reqs: seq<Request>, db: DB)
    requires CreateTxs(env, user, reqs, db).Ok?
    ensures var next := CreateTxs(env, user, reqs, db).value; SameNames(db, next) && db.nextTx <= next.nextTx
  {
    if reqs != [] {
      CreateShape(env, user, reqs[0], db);
      CreateManyShape(env, user, reqs[1..], CreateTx(env, user, reqs[0], db).value);
    }
  }

  lemma {:induction false} SameNamesStay(db: DB, next: DB)
    requires SameNames(db, next) && db.nextTx <= next.nextTx
    ensures OwnersStay(db, next)
  {
  }

  lemma {:induction false} CreateReady(w: World, env: Env, user: nat, reqs: seq<Request>)
    requires Ready(w)
    ensures Ready(NextTx(w, Event.Create(env, user, reqs)))
  {
    if CreateTxs(env, user, reqs, w.db).Ok? {
      CreateManyKeeps(env, user, reqs, w.db);
      CreateManyShape(env, user, reqs, w.db);
      SameNamesStay(w.db, CreateTxs(env, user, reqs, w.db).value);
      SlotsStay(w, CreateTxs(env, user, reqs, w.db).value);
    }
  }

  lemma {:induction false} ReadTxReady(w: World, slot: nat, p: Result<Pending>)
    requires Ready(w) && (p.Ok? ==> Readable(p.value, w.db) && !Refused(p.value, w.db))
    ensures Ready(if p.Ok? then w.(pending := w.pending[slot := p.value]) else w)
  {
  }

  lemma {:induction false} CommitReady(w: World, slot: nat)
    requires Ready(w) && slot in w.pending
    ensures Ready(NextTx(w, CommitTx(slot)))
  {
    var p := w.pending[slot];
    CommitKeeps(p, w.db);
    CommitShape(p, w.db);
    SameNamesStay(w.db, Commit(p, w.db));
    SlotsStay(w, Commit(p, w.db));
  }

  lemma {:induction false} TxEventReady(w: World, e: Event)
    requires Ready(w) && IsTxEvent(e)
    ensures Ready(NextTx(w, e))
  {
    match e {
      case Create(env, user, reqs) => CreateReady(w, env, user, reqs);
      case ReadUpdate(slot, env, user, id, req) =>
        var p := PrepareUpdate(env, user, id, req, w.db);
        if p.Ok? { ReadUpdateReadable(env, user, id, req, w.db); }
        ReadTxReady(w, slot, p);
      case ReadDelete(slot, user, id) => ReadTxReady(w, slot, PrepareDelete(user, id, w.db));
      case CommitTx(slot) => if slot in w.pending { CommitReady(w, slot); }
    }
  }

  // ----- accounts -----

  lemma {:induction false} NewAccountReady(w: World, a: Account)
    requires Ready(w)
    ensures Ready(w.(db := InsertAccount(w.db, a)))
  {
    NewAccountKeeps(w.db, a);
    SlotsStay(w, InsertAccount(w.db, a));
  }

  lemma {:induction false} ReadAccountReady(w: World, slot: nat, r: SavedRow)
    requires Ready(w) && r.id in w.db.accounts && w.db.accounts[r.id].owner == r.row.owner
    ensures Ready(w.(rows := w.rows[slot := r]))
  {
  }

  lemma {:induction false} CommitAccountReady(w: World, slot: nat)
    requires Ready(w) && slot in w.rows
    ensures Ready(w.(db := SaveAccount(w.db, w.rows[slot].id, w.rows[slot].row), rows := w.rows - {slot}))
  {
    var r := w.rows[slot];
    assert RowFits(r, w.db);
    EditAccountKeeps(w.db, r.id, r.row);
    var next := w.(db := SaveAccount(w.db, r.id, r.row), rows := w.rows - {slot});
    forall s | s in next.rows ensures RowFits(next.rows[s], next.db) {
      assert RowFits(w.rows[s], w.db);
    }
  }

  lemma {:induction false} DropAccountReady(w: World, user: nat, id: nat)
    requires Ready(w)
    ensures Ready(w.(db := DropAccount(w.db, user, id)))
  {
    DropAccountKeeps(user, id, w.db);
    SlotsStay(w, DropAccount(w.db, user, id));
  }

  lemma {:induction false} AddAccountReady(w: World, e: Event)
    requires Ready(w) && (e.NewAccount? || e.ResolveAccount?)
    ensures Ready(NextAccount(w, e))
  {
    match e {
      case NewAccount(env, user, name, kind, balance) =>
        var r := CreateAccount(env, user, name, kind, balance, w.db);
        if r.Ok? { NewAccountReady(w, r.value.accounts[w.db.nextAccount]); }
      case ResolveAccount(user, name) => NewAccountReady(w, Account(user, AccountName(name), "custom", 0));
    }
  }

  lemma {:induction false} AccountEventReady(w: World, e: Event)
    requires Ready(w) && IsAccountEvent(e)
    ensures Ready(NextAccount(w, e))
  {
    match e {
      case ReadAccount(slot, env, user, id, name, kind, balance) =>
        var r := PrepareAccount(env, user, id, name, kind, balance, w.db);
        if r.Ok? { ReadAccountReady(w, slot, SavedRow(id, r.value)); }
      case CommitAccount(slot) => if slot in w.rows { CommitAccountReady(w, slot); }
      case RemoveAccount(user, id) => DropAccountReady(w, user, id);
      case _ => AddAccountReady(w, e);
    }
  }

  // ----- categories -----

  lemma {:induction false} NewCategoryReady(w: World, c: Category)
    requires Ready(w) && IsKind(c.kind)
    ensures Ready(w.(db := InsertCategory(w.db, c)))
  {
    NewCategoryKeeps(w.db, c);
    SlotsStay(w, InsertCategory(w.db, c));
  }

  lemma {:induction false} ReadCategoryReady(w: World, slot: nat, l: SavedLabel)
    requires Ready(w) && l.id in w.db.categories && LabelFits(l, w.db)
    ensures Ready(w.(labels := w.labels[slot := l]))
  {
  }

  lemma {:induction false} CommitCategoryReady(w: World, slot: nat)
    requires Ready(w) && slot in w.labels
    ensures Ready(w.(db := SaveCategory(w.db, w.labels[slot].id, w.labels[slot].row), labels := w.labels - {slot}))
  {
    var l := w.labels[slot];
    assert LabelFits(l, w.db);
    EditCategoryKeeps(w.db, l.id, l.row);
    var next := w.(db := SaveCategory(w.db, l.id, l.row), labels := w.labels - {slot});
    forall s | s in next.labels ensures LabelFits(next.labels[s], next.db) {
      assert LabelFits(w.labels[s], w.db);
    }
  }

  lemma {:induction false} DropCategoryReady(w: World, user: nat, id: nat)
    requires Ready(w)
    ensures Ready(w.(db := DropCategory(w.db, user, id)))
  {
    DropCategoryKeeps(user, id, w.db);
    SlotsStay(w, DropCategory(w.db, user, id));
  }

  lemma {:induction false} AddCategoryReady(w: World, e: Event)
    requires Ready(w) && (e.NewCategory? || e.ResolveCategory?)
    ensures Ready(NextCategory(w, e))
  {
    match e {
      case NewCategory(env, user, name, kind) =>
        var r := CreateCategory(env, user, name, kind, w.db);
        if r.Ok? { NewCategoryReady(w, r.value.categories[w.db.nextCategory]); }
      case ResolveCategory(user, income, name) =>
        NewCategoryReady(w, Category(Some(user), Trim(name), KindName(income), false));
    }
  }

  lemma {:induction false} CategoryEventReady(w: World, e: Event)
    requires Ready(w) && !IsTxEvent(e) && !IsAccountEvent(e)
    ensures Ready(NextCategory(w, e))
  {
    match e {
      case ReadCategory(slot, env, user, id, name, kind) =>
        var r := PrepareCategory(env, user, id, name, kind, w.db);
        if r.Ok? { ReadCategoryReady(w, slot, SavedLabel(id, r.value)); }
      case CommitCategory(slot) => if slot in w.labels { CommitCategoryReady(w, slot); }
      case RemoveCategory(user, id) => DropCategoryReady(w, user, id);
      case RolledBack =>
      case _ => AddCategoryReady(w, e);
    }
  }

  // ----- runs -----

  /** Every event keeps integrity, with any requests in flight. */
  lemma {:induction false} NextKeeps(w: World, e: Event)
    requires Ready(w)
    ensures Ready(Next(w, e))
  {
    if IsTxEvent(e) {
      TxEventReady(w, e);
    } else if IsAccountEvent(e) {
      AccountEventReady(w, e);
    } else {
      CategoryEventReady(w, e);
    }
  }

  /** So does every run, however the steps of its requests interleave. */
  lemma {:induction false} InterleavedRunKeeps(w: World, es: seq<Event>)
    requires Ready(w)
    ensures Ready(LedgerRuns.Run(w, es))
    decreases |es|
  {
    if es != [] {
      NextKeeps(w, es[0]);
      InterleavedRunKeeps(Next(w, es[0]), es[1..]);
    }
  }

  /** In particular from an intact or a seeded database on which nothing is under way. */
  lemma {:induction false} EveryRunKeeps(db: DB, es: seq<Event>)
    requires Integrity(db) || Seeded(db)
    ensures Integrity(LedgerRuns.Run(Idle(db), es).db)
  {
    InterleavedRunKeeps(Idle(db), es);
  }

  // ----- serial calls are runs -----

  /** The events of one call that runs alone. */
  function EventsOf(op: Op, db: DB): seq<Event> {
    match op
    case Create(env, user, reqs) => [Event.Create(env, user, reqs)]
    case Update(env, user, id, req) => [ReadUpdate(0, env, user, id, req), CommitTx(0)]
    case Delete(user, id) => [ReadDelete(0, user, id), CommitTx(0)]
    case NewAccount(env, user, name, kind, balance) => [Event.NewAccount(env, user, name, kind, balance)]
    case EditAccount(env, user, id, name, kind, balance) =>
      [ReadAccount(0, env, user, id, name, kind, balance), CommitAccount(0)]
    case RemoveAccount(user, id) =>
      if AccountInUse(db, user, id) then [Event.RolledBack] else [Event.RemoveAccount(user, id)]
    case NewCategory(env, user, name, kind) => [Event.NewCategory(env, user, name, kind)]
    case EditCategory(env, user, id, name, kind) => [ReadCategory(0, env, user, id, name, kind), CommitCategory(0)]
    case RemoveCategory(user, id) =>
      if CategoryInUse(db, user, id) then [Event.RolledBack] else [Event.RemoveCategory(user, id)]
    case ResolveNames(user, income, category, account) =>
      [ResolveCategory(user, income, category), ResolveAccount(user, account)]
    case RolledBack => [Event.RolledBack]
  }

  lemma {:induction false} OneEvent(w: World, e: Event)
    ensures LedgerRuns.Run(w, [e]) == Next(w, e)
  {
    assert LedgerRuns.Run(Next(w, e), []) == Next(w, e);
  }

  lemma {:induction false} TwoEvents(w: World, d: Event, e: Event)
    ensures LedgerRuns.Run(w, [d, e]) == Next(Next(w, d), e)
  {
    OneEvent(Next(w, d), e);
    assert [d, e][1..] == [e];
  }

  lemma {:induction false} TxOpIsRun(op: Op, db: DB)
    requires op.Create? || op.Update? || op.Delete?
    ensures LedgerRuns.Run(Idle(db), EventsOf(op, db)).db == Perform(op, db)
  {
    var es := EventsOf(op, db);
    if op.Create? { OneEvent(Idle(db), es[0]); } else { TwoEvents(Idle(db), es[0], es[1]); }
  }

  lemma {:induction false} EditAccountIsRun(env: Env, user: nat, id: nat, name: string, kind: string, balance: real,
                                            db: DB)
    ensures var op := EditAccount(env, user, id, name, kind, balance);
      LedgerRuns.Run(Idle(db), EventsOf(op, db)).db == Perform(op, db)
  {
    TwoEvents(Idle(db), ReadAccount(0, env, user, id, name, kind, balance), CommitAccount(0));
  }

  lemma {:induction false} AccountOpIsRun(op: Op, db: DB)
    requires op.NewAccount? || op.RemoveAccount?
    ensures LedgerRuns.Run(Idle(db), EventsOf(op, db)).db == Perform(op, db)
  {
    OneEvent(Idle(db), EventsOf(op, db)[0]);
  }

  lemma {:induction false} EditCategoryIsRun(env: Env, user: nat, id: nat, name: string, kind: string, db: DB)
    ensures var op := EditCategory(env, user, id, name, kind);
      LedgerRuns.Run(Idle(db), EventsOf(op, db)).db == Perform(op, db)
  {
    TwoEvents(Idle(db), ReadCategory(0, env, user, id, name, kind), CommitCategory(0));
  }

  lemma {:induction false} CategoryOpIsRun(op: Op, db: DB)
    requires op.NewCategory? || op.RemoveCategory?
    ensures LedgerRuns.Run(Idle(db), EventsOf(op, db)).db == Perform(op, db)
  {
    OneEvent(Idle(db), EventsOf(op, db)[0]);
  }

  lemma {:induction false} ResolveOpIsRun(op: Op, db: DB)
    requires op.ResolveNames? || op.RolledBack?
    ensures LedgerRuns.Run(Idle(db), EventsOf(op, db)).db == Perform(op, db)
  {
    var es := EventsOf(op, db);
    if op.ResolveNames? { TwoEvents(Idle(db), es[0], es[1]); } else { OneEvent(Idle(db), es[0]); }
  }

  /** A service call that runs alone does to the database what its events do. */
  lemma {:induction false} PerformIsRun(op: Op, db: DB)
    ensures LedgerRuns.Run(Idle(db), EventsOf(op, db)).db == Perform(op, db)
  {
    match op {
      case EditAccount(env, user, id, name, kind, balance) => EditAccountIsRun(env, user, id, name, kind, balance, db);
      case EditCategory(env, user, id, name, kind) => EditCategoryIsRun(env, user, id, name, kind, db);
      case Create(_, _, _) | Update(_, _, _, _) | Delete(_, _) => TxOpIsRun(op, db);
      case NewAccount(_, _, _, _, _) | RemoveAccount(_, _) => AccountOpIsRun(op, db);
      case NewCategory(_, _, _, _) | RemoveCategory(_, _) => CategoryOpIsRun(op, db);
      case ResolveNames(_, _, _, _) | RolledBack => ResolveOpIsRun(op, db);
    }
  }
}
