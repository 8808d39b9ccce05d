/**
 Runs of ledger requests: every read and every transaction is an event of its own, so that
 any other events may come between the read of a request and its commit.
 */
module LedgerRuns {
  import opened Ledger

  datatype SavedRow = SavedRow(id: nat, row: Account)

  datatype SavedLabel = SavedLabel(id: nat, row: Category)

  /** What is committed, and what requests in flight have read, by slot. */
  datatype World = World(db: DB, pending: map<nat, Pending>, rows: map<nat, SavedRow>, labels: map<nat, SavedLabel>)

  function Idle(db: DB): World { World(db, map[], map[], map[]) }

  datatype Event =
    | Create(env: Env, user: nat, reqs: seq<Request>)
    | ReadUpdate(slot: nat, env: Env, user: nat, id: nat, req: Request)
    | ReadDelete(slot: nat, user: nat, id: nat)
    | CommitTx(slot: nat)
    | NewAccount(env: Env, user: nat, name: string, kind: string, balance: real)
    | ResolveAccount(user: nat, name: string)
    | ReadAccount(slot: nat, env: Env, user: nat, id: nat, name: string, kind: string, balance: real)
    | CommitAccount(slot: nat)
    | RemoveAccount(user: nat, id: nat)   // after the count of its transactions was 0
    | NewCategory(env: Env, user: nat, name: string, kind: string)
    | ResolveCategory(user: nat, income: bool, name: string)
    | ReadCategory(slot: nat, env: Env, user: nat, id: nat, name: string, kind: string)
    | CommitCategory(slot: nat)
    | RemoveCategory(user: nat, id: nat)  // after the count of its transactions was 0
    | RolledBack                          // a transaction whose write failed

  function KindName(income: bool): string { if income then "income" else "expense" }

  predicate IsTxEvent(e: Event) { e.Create? || e.ReadUpdate? || e.ReadDelete? || e.CommitTx? }

  predicate IsAccountEvent(e: Event) {
    e.NewAccount? || e.ResolveAccount? || e.ReadAccount? || e.CommitAccount? || e.RemoveAccount?
  }

  function Next(w: World, e: Event): World {
    if IsTxEvent(e) then NextTx(w, e)
    else if IsAccountEvent(e) then NextAccount(w, e)
    else NextCategory(w, e)
  }

  function NextTx(w: World, e: Event): World
    requires IsTxEvent(e)
  {
    match e
    case Create(env, user, reqs) =>
      var r := CreateTxs(env, user, reqs, w.db);
      if r.Ok? then w.(db := r.value) else w
    case ReadUpdate(slot, env, user, id, req) =>
      var p := PrepareUpdate(env, user, id, req, w.db);
      if p.Ok? then w.(pending := w.pending[slot := p.value]) else w
    case ReadDelete(slot, user, id) =>
      var p := PrepareDelete(user, id, w.db);
      if p.Ok? then w.(pending := w.pending[slot := p.value]) else w
    case CommitTx(slot) =>
      if slot in w.pending then w.(db := Commit(w.pending[slot], w.db), pending := w.pending - {slot}) else w
  }

  function NextAccount(w: World, e: Event): World
    requires IsAccountEvent(e)
  {
    match e
    case NewAccount(env, user, name, kind, balance) =>
      var r := CreateAccount(env, user, name, kind, balance, w.db);
      if r.Ok? then w.(db := r.value) else w
    case ResolveAccount(user, name) => w.(db := FindOrCreateAccount(user, name, w.db).db)
    case ReadAccount(slot, env, user, id, name, kind, balance) =>
      var r := PrepareAccount(env, user, id, name, kind, balance, w.db);
      if r.Ok? then w.(rows := w.rows[slot := SavedRow(id, r.value)]) else w
    case CommitAccount(slot) =>
      if slot in w.rows
        then w.(db := SaveAccount(w.db, w.rows[slot].id, w.rows[slot].row), rows := w.rows - {slot})
        else w
    case RemoveAccount(user, id) => w.(db := DropAccount(w.db, user, id))
  }

  function NextCategory(w: World, e: Event): World
    requires !IsTxEvent(e) && !IsAccountEvent(e)
  {
    match e
    case NewCategory(env, user, name, kind) =>
      var r := CreateCategory(env, user, name, kind, w.db);
      if r.Ok? then w.(db := r.value) else w
    case ResolveCategory(user, income, name) =>
      var r := FindOrCreateCategory(user, KindName(income), name, w.db);
      if r.Ok? then w.(db := r.value.db) else w
    case ReadCategory(slot, env, user, id, name, kind) =>
      var r := PrepareCategory(env, user, id, name, kind, w.db);
      if r.Ok? then w.(labels := w.labels[slot := SavedLabel(id, r.value)]) else w
    case CommitCategory(slot) =>
      if slot in w.labels
      then w.(db := SaveCategory(w.db, w.labels[slot].id, w.labels[slot].row), labels := w.labels - {slot})
      else w
    case RemoveCategory(user, id) => w.(db := DropCategory(w.db, user, id))
    case RolledBack => w
  }

  function Run(w: World, es: seq<Event>): World
    decreases |es|
  {
    if es == [] then w else Run(Next(w, es[0]), es[1..])
  }

  // ----- keys -----

  /** The keys that requests in flight hold. */
  predicate SlotsBounded(w: World) {
    && (forall s | s in w.pending :: w.pending[s].id < w.db.nextTx)
    && (forall s | s in w.rows :: w.rows[s].id < w.db.nextAccount)
    && (forall s | s in w.labels :: w.labels[s].id < w.db.nextCategory)
  }

  /** All keys, stored or in flight, are below the next ones. */
  predicate Sound(w: World) { KeysBounded(w.db) && SlotsBounded(w) }

  /** No key is handed out twice. */
  predicate Grows(db: DB, next: DB) {
    db.nextAccount <= next.nextAccount && db.nextCategory <= next.nextCategory && db.nextTx <= next.nextTx
  }

  lemma {:induction false} CommitBounded(p: Pending, db: DB)
    requires KeysBounded(db) && p.id < db.nextTx
    ensures KeysBounded(Commit(p, db)) && Grows(db, Commit(p, db))
  {
  }

  lemma {:induction false} CreateBounded(env: Env, user: nat, req: Request, db: DB)
    requires KeysBounded(db) && CreateTx(env, user, req, db).Ok?
    ensures var next := CreateTx(env, user, req, db).value;
      && KeysBounded(next) && Grows(db, next) && next.nextTx == db.nextTx + 1
      && next.nextAccount == db.nextAccount && next.categories == db.categories
  {
  }

  lemma {:induction false} CreateManyBounded(env: Env, user: nat, reqs: seq<Request>, db: DB)
    requires KeysBounded(db) && CreateTxs(env, user, reqs, db).Ok?
    ensures var next := CreateTxs(env, user, reqs, db).value;
      && KeysBounded(next) && Grows(db, next) && next.nextTx == db.nextTx + |reqs|
      && next.nextAccount == db.nextAccount && next.categories == db.categories
  {
    if reqs != [] {
      CreateBounded(env, user, reqs[0], db);
      CreateManyBounded(env, user, reqs[1..], CreateTx(env, user, reqs[0], db).value);
    }
  }

  lemma {:induction false} TxEventKeys(w: World, e: Event)
    requires Sound(w) && IsTxEvent(e)
    ensures KeysBounded(NextTx(w, e).db) && Grows(w.db, NextTx(w, e).db)
  {
    match e {
      case Create(env, user, reqs) =>
        if CreateTxs(env, user, reqs, w.db).Ok? { CreateManyBounded(env, user, reqs, w.db); }
      case CommitTx(slot) => if slot in w.pending { CommitBounded(w.pending[slot], w.db); }
      case _ =>
    }
  }

  lemma {:induction false} TxEventSlots(w: World, e: Event)
    requires Sound(w) && IsTxEvent(e) && Grows(w.db, NextTx(w, e).db)
    ensures SlotsBounded(NextTx(w, e))
  {
  }

  lemma {:induction false} AccountEventKeys(w: World, e: Event)
    requires Sound(w) && IsAccountEvent(e)
    ensures KeysBounded(NextAccount(w, e).db) && Grows(w.db, NextAccount(w, e).db)
  {
  }

  lemma {:induction false} AccountEventSlots(w: World, e: Event)
    requires Sound(w) && IsAccountEvent(e) && Grows(w.db, NextAccount(w, e).db)
    ensures SlotsBounded(NextAccount(w, e))
  {
  }

  lemma {:induction false} CategoryEventKeys(w: World, e: Event)
    requires Sound(w) && !IsTxEvent(e) && !IsAccountEvent(e)
    ensures KeysBounded(NextCategory(w, e).db) && Grows(w.db, NextCategory(w, e).db)
  {
  }

  lemma {:induction false} CategoryEventSlots(w: World, e: Event)
    requires Sound(w) && !IsTxEvent(e) && !IsAccountEvent(e) && Grows(w.db, NextCategory(w, e).db)
    ensures SlotsBounded(NextCategory(w, e))
  {
  }

  lemma {:induction false} NextSound(w: World, e: Event)
    requires Sound(w)
    ensures Sound(Next(w, e)) && Grows(w.db, Next(w, e).db)
  {
    if IsTxEvent(e) {
      TxEventKeys(w, e);
      TxEventSlots(w, e);
    } else if IsAccountEvent(e) {
      AccountEventKeys(w, e);
      AccountEventSlots(w, e);
    } else {
      CategoryEventKeys(w, e);
      CategoryEventSlots(w, e);
    }
  }
}
