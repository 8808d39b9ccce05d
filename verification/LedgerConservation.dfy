/**
 Balances against stored transactions, over runs in which the read step and the
 transaction of every update and delete may be separated by any other events.
 */
module LedgerConservation {
  import opened Ledger
  import opened LedgerRuns

  /** What row id adds to account a. */
  function On(txs: map<nat, Tx>, id: nat, a: nat): int {
    if id in txs then OnRow(txs[id], a) else 0
  }

  function OnRow(t: Tx, a: nat): int {
    if t.account == a then Delta(t.kind, t.cents) else 0
  }

  /** Signed sum of the rows below n on account a. */
  function Sum(txs: map<nat, Tx>, a: nat, n: nat): int {
    if n == 0 then 0 else Sum(txs, a, n - 1) + On(txs, n - 1, a)
  }

  /** How far an account's balance is from the signed sum of its stored transactions. */
  function Drift(db: DB, a: nat): int
    requires a in db.accounts
  {
    db.accounts[a].balance - Sum(db.txs, a, db.nextTx)
  }

  lemma {:induction false} SumSame(txs: map<nat, Tx>, others: map<nat, Tx>, a: nat, n: nat)
    requires forall j :: 0 <= j < n ==> On(txs, j, a) == On(others, j, a)
    ensures Sum(txs, a, n) == Sum(others, a, n)
  {
    if n > 0 { SumSame(txs, others, a, n - 1); }
  }

  /** Changing one row moves the sum by the difference of its contributions. */
  lemma {:induction false} SumChange(txs: map<nat, Tx>, others: map<nat, Tx>, a: nat, n: nat, id: nat)
    requires id < n && forall j :: 0 <= j < n && j != id ==> On(txs, j, a) == On(others, j, a)
    ensures Sum(others, a, n) == Sum(txs, a, n) - On(txs, id, a) + On(others, id, a)
  {
    if id == n - 1 {
      SumSame(txs, others, a, n - 1);
    } else {
      SumChange(txs, others, a, n - 1, id);
    }
  }

  /** Creating a transaction conserves: row and balance move together. */
  lemma {:induction false} CreateConserves(env: Env, user: nat, req: Request, db: DB)
    requires KeysBounded(db) && CreateTx(env, user, req, db).Ok?
    ensures var next := CreateTx(env, user, req, db).value;
      && KeysBounded(next) && next.accounts.Keys == db.accounts.Keys
      && forall a :: a in db.accounts ==> Drift(next, a) == Drift(db, a)
  {
    var next := CreateTx(env, user, req, db).value;
    forall a | a in db.accounts ensures Drift(next, a) == Drift(db, a) {
      SumSame(db.txs, next.txs, a, db.nextTx);
    }
  }

  lemma {:induction false} CreateManyConserves(env: Env, user: nat, reqs: seq<Request>, db: DB)
    requires KeysBounded(db) && CreateTxs(env, user, reqs, db).Ok?
    ensures var next := CreateTxs(env, user, reqs, db).value;
      && KeysBounded(next) && next.accounts.Keys == db.accounts.Keys
      && forall a :: a in db.accounts ==> Drift(next, a) == Drift(db, a)
  {
    if reqs != [] {
      CreateConserves(env, user, reqs[0], db);
      CreateManyConserves(env, user, reqs[1..], CreateTx(env, user, reqs[0], db).value);
    }
  }

  /** What a commit finds stored beyond the row that was read; a refused one finds nothing. */
  function Staleness(p: Pending, db: DB, a: nat): int {
    if Refused(p, db) then 0 else On(db.txs, p.id, a) - OnRow(p.before, a)
  }

  lemma {:induction false} AddBalanceAt(db: DB, account: nat, delta: int, a: nat)
    requires a in db.accounts
    ensures var next := AddBalance(db, account, delta);
      && next.accounts.Keys == db.accounts.Keys && next.txs == db.txs
      && next.accounts[a].balance == db.accounts[a].balance + if account == a then delta else 0
  {
  }

  /** What a commit does to a balance: the effect that was read goes, the new row's comes. */
  lemma {:induction false} CommitBalance(p: Pending, db: DB, a: nat)
    requires a in db.accounts
    ensures var next := Written(p, db);
      && next.accounts.Keys == db.accounts.Keys
      && next.accounts[a].balance == db.accounts[a].balance - OnRow(p.before, a)
        + if p.UpdateTx? then OnRow(p.after, a) else 0
  {
    AddBalanceAt(db, p.before.account, -Delta(p.before.kind, p.before.cents), a);
    if p.UpdateTx? {
      AddBalanceAt(Revert(db, p.before), p.after.account, Delta(p.after.kind, p.after.cents), a);
    }
  }

  lemma {:induction false} CommitRows(p: Pending, db: DB)
    ensures var next := Written(p, db);
      && next.nextTx == db.nextTx && next.nextAccount == db.nextAccount && next.accounts.Keys == db.accounts.Keys
      && next.txs == if p.UpdateTx? then db.txs[p.id := p.after] else db.txs - {p.id}
  {
  }

  lemma {:induction false} CommitShift(p: Pending, db: DB, a: nat)
    requires p.id < db.nextTx && a in db.accounts
    ensures a in Commit(p, db).accounts && Drift(Commit(p, db), a) == Drift(db, a) + Staleness(p, db, a)
  {
    if !Refused(p, db) {
      CommitBalance(p, db, a);
      CommitRows(p, db);
      SumChange(db.txs, Written(p, db).txs, a, db.nextTx, p.id);
    }
  }

  /** A commit shifts each balance by exactly the staleness of its snapshot. */
  lemma {:induction false} CommitShifts(p: Pending, db: DB)
    requires KeysBounded(db) && p.id < db.nextTx
    ensures var next := Commit(p, db);
      && KeysBounded(next) && next.accounts.Keys == db.accounts.Keys
      && forall a :: a in db.accounts ==> Drift(next, a) == Drift(db, a) + Staleness(p, db, a)
  {
    CommitRows(p, db);
    forall a | a in db.accounts ensures Drift(Commit(p, db), a) == Drift(db, a) + Staleness(p, db, a) {
      CommitShift(p, db, a);
    }
  }

  /** A commit conserves every balance exactly when it is refused or the stored row still has the effect
      that was read. */
  lemma {:induction false} CommitConserves(p: Pending, db: DB)
    requires KeysBounded(db) && p.id < db.nextTx
    ensures (forall a :: a in db.accounts ==> Drift(Commit(p, db), a) == Drift(db, a))
      <==> Refused(p, db) || forall a :: a in db.accounts ==> On(db.txs, p.id, a) == OnRow(p.before, a)
  {
    CommitShifts(p, db);
    assert !Refused(p, db) ==>
      forall a :: a in db.accounts ==> Staleness(p, db, a) == On(db.txs, p.id, a) - OnRow(p.before, a);
  }

  // ----- runs -----

  /** Whether an event writes the row of account a itself, with a balance of its own. */
  predicate SetsRow(w: World, e: Event, a: nat) {
    match e
    case NewAccount(_, _, _, _, _) => a == w.db.nextAccount
    case ResolveAccount(_, _) => a == w.db.nextAccount
    case CommitAccount(slot) => slot in w.rows && w.rows[slot].id == a
    case _ => false
  }

  /** How an event that does not set the row moves the drift of account a. */
  function Shift(w: World, e: Event, a: nat): int {
    if e.CommitTx? && e.slot in w.pending then Staleness(w.pending[e.slot], w.db, a) else 0
  }

  lemma {:induction false} TxEventDrift(w: World, e: Event, a: nat)
    requires Sound(w) && IsTxEvent(e) && a in NextTx(w, e).db.accounts
    ensures a in w.db.accounts && Drift(NextTx(w, e).db, a) == Drift(w.db, a) + Shift(w, e, a)
  {
    match e {
      case Create(env, user, reqs) =>
        if CreateTxs(env, user, reqs, w.db).Ok? { CreateManyConserves(env, user, reqs, w.db); }
      case CommitTx(slot) => if slot in w.pending { CommitShifts(w.pending[slot], w.db); }
      case _ =>
    }
  }

  /** Account events keep the transactions, and the rows of all accounts but the one they set. */
  lemma {:induction false} AccountEventDrift(w: World, e: Event, a: nat)
    requires IsAccountEvent(e) && a in NextAccount(w, e).db.accounts && !SetsRow(w, e, a)
    ensures a in w.db.accounts && Drift(NextAccount(w, e).db, a) == Drift(w.db, a)
  {
  }

  lemma {:induction false} NextDrift(w: World, e: Event, a: nat)
    requires Sound(w) && a in Next(w, e).db.accounts && !SetsRow(w, e, a)
    ensures a in w.db.accounts && Drift(Next(w, e).db, a) == Drift(w.db, a) + Shift(w, e, a)
  {
    if IsTxEvent(e) {
      TxEventDrift(w, e, a);
    } else if IsAccountEvent(e) {
      AccountEventDrift(w, e, a);
    }
  }

  /** One event: writing the row of a sets a new base, a stale commit shifts it, nothing else moves it. */
  function BaseAfter(w: World, e: Event, a: nat, base: int): int {
    var next := Next(w, e);
    if SetsRow(w, e, a) && a in next.db.accounts then Drift(next.db, a) else base + Shift(w, e, a)
  }

  lemma {:induction false} BaseAfterDrift(w: World, e: Event, a: nat, base: int)
    requires Sound(w) && a in Next(w, e).db.accounts && (a in w.db.accounts ==> base == Drift(w.db, a))
    ensures BaseAfter(w, e, a, base) == Drift(Next(w, e).db, a)
  {
    if !SetsRow(w, e, a) { NextDrift(w, e, a); }
  }

  /** The drift account a should end a run with when it starts at `base`. */
  function Expected(w: World, es: seq<Event>, a: nat, base: int): int
    decreases |es|
  {
    if es == [] then base else Expected(Next(w, es[0]), es[1..], a, BaseAfter(w, es[0], a, base))
  }

  /** Over every run, the drift of an account is what the rows written and the stale commits make it. */
  lemma {:induction false} RunDrift(w: World, es: seq<Event>, a: nat, base: int)
    requires Sound(w) && a in Run(w, es).db.accounts
    requires a in w.db.accounts ==> base == Drift(w.db, a)
    ensures Drift(Run(w, es).db, a) == Expected(w, es, a, base)
    decreases |es|
  {
    if es != [] {
      var next := Next(w, es[0]);
      assert Sound(next) by { NextSound(w, es[0]); }
      var b := BaseAfter(w, es[0], a, base);
      if a in next.db.accounts { BaseAfterDrift(w, es[0], a, base); }
      RunDrift(next, es[1..], a, b);
    }
  }

  /** Every commit on account a still finds the effect it read, and nobody writes the account's row. */
  predicate Current(w: World, es: seq<Event>, a: nat)
    decreases |es|
  {
    es == [] || (!SetsRow(w, es[0], a) && Shift(w, es[0], a) == 0 && Current(Next(w, es[0]), es[1..], a))
  }

  lemma {:induction false} ExpectedCurrent(w: World, es: seq<Event>, a: nat, base: int)
    requires Current(w, es, a)
    ensures Expected(w, es, a, base) == base
    decreases |es|
  {
    if es != [] { ExpectedCurrent(Next(w, es[0]), es[1..], a, base); }
  }

  lemma {:induction false} CurrentKeepsAccount(w: World, es: seq<Event>, a: nat)
    requires Sound(w) && Current(w, es, a) && a in Run(w, es).db.accounts
    ensures a in w.db.accounts
    decreases |es|
  {
    if es != [] {
      NextSound(w, es[0]);
      CurrentKeepsAccount(Next(w, es[0]), es[1..], a);
      NextDrift(w, es[0], a);
    }
  }

  /** Conservation: while snapshots are current, a balance changes by the change of its signed sum. */
  lemma {:induction false} RunConserves(w: World, es: seq<Event>, a: nat)
    requires Sound(w) && Current(w, es, a) && a in Run(w, es).db.accounts
    ensures a in w.db.accounts
    ensures var last := Run(w, es).db;
      last.accounts[a].balance - w.db.accounts[a].balance ==
        Sum(last.txs, a, last.nextTx) - Sum(w.db.txs, a, w.db.nextTx)
  {
    CurrentKeepsAccount(w, es, a);
    RunDrift(w, es, a, Drift(w.db, a));
    ExpectedCurrent(w, es, a, Drift(w.db, a));
  }

  /** Two deletes of one row that both read it before either commits: the second reverts it again. */
  lemma {:induction false} DoubleDeleteDrifts(db: DB, id: nat)
    requires KeysBounded(db) && id in db.txs && db.txs[id].account in db.accounts
    ensures var t := db.txs[id];
      var w := Idle(db);
      var es := [ReadDelete(0, t.owner, id), ReadDelete(1, t.owner, id), CommitTx(0), CommitTx(1)];
      var last := Run(w, es).db;
      t.account in last.accounts && Drift(last, t.account) == Drift(db, t.account) - Delta(t.kind, t.cents)
  {
    var t := db.txs[id];
    var p := DeleteTx(id, t);
    var w := Idle(db);
    var w1 := Next(w, ReadDelete(0, t.owner, id));
    var w2 := Next(w1, ReadDelete(1, t.owner, id));
    var w3 := Next(w2, CommitTx(0));
    var w4 := Next(w3, CommitTx(1));
    var es := [ReadDelete(0, t.owner, id), ReadDelete(1, t.owner, id), CommitTx(0), CommitTx(1)];
    assert es[1..] == [ReadDelete(1, t.owner, id), CommitTx(0), CommitTx(1)];
    assert es[1..][1..] == [CommitTx(0), CommitTx(1)];
    assert es[1..][1..][1..] == [CommitTx(1)];
    assert Run(w, es) == Run(w1, es[1..]) == Run(w2, es[1..][1..]) == Run(w3, [CommitTx(1)]) == w4;
    CommitShifts(p, db);
    CommitShifts(p, w3.db);
  }
}
