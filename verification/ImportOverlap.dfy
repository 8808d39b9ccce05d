/** Imports whose lookups and commits overlap: every row is looked up by a query of its own, before
    the transaction that writes the batch, while another import of the same rows may commit. */
module ImportOverlap {
  import opened Common
  import opened Ledger
  import opened LedgerIntegrity
  import opened Import
  import opened ImportTheorems

  /** The verdicts of an import that looks row k up in looks[k]. */
  ghost predicate JudgedOver(env: ImportEnv, looks: seq<DB>, user: nat, rows: seq<Row>, vs: seq<Verdict>,
                             seens: seq<Seen>) {
    && |looks| == |rows| && |vs| == |rows| && |seens| == |rows| + 1 && seens[0] == map[]
    && forall k {:trigger Judge(env, looks[k], user, true, rows[k], seens[k])} :: 0 <= k < |rows| ==>
      && vs[k] == Judge(env, looks[k], user, true, rows[k], seens[k])
      && seens[k + 1] == See(env, rows[k], k, vs[k], seens[k])
  }

  /** An import that looks all rows up in one ledger is a special case. */
  lemma {:induction false} OneLook(env: ImportEnv, db: DB, user: nat, rows: seq<Row>, vs: seq<Verdict>,
                                   seens: seq<Seen>)
    requires Judged(env, db, user, true, rows, |rows|, vs, seens)
    ensures JudgedOver(env, seq(|rows|, k => db), user, rows, vs, seens)
  {
    var looks := seq(|rows|, k => db);
    forall k | 0 <= k < |rows|
      ensures vs[k] == Judge(env, looks[k], user, true, rows[k], seens[k])
      ensures seens[k + 1] == See(env, rows[k], k, vs[k], seens[k])
    {
      assert vs[k] == Judge(env, db, user, true, rows[k], seens[k]);
    }
  }

  lemma {:induction false} FirstFresh(env: ImportEnv, looks: seq<DB>, user: nat, rows: seq<Row>, vs: seq<Verdict>,
                                      seens: seq<Seen>, k: nat)
    requires JudgedOver(env, looks, user, rows, vs, seens) && k < |rows| && seens[k] == map[]
    ensures !vs[k].Fresh? ==> seens[k + 1] == map[]
    ensures vs[k].Fresh? <==> !RowStored(env, looks[k], user, rows[k])
  {
    JudgeKey(env, looks[k], user, rows[k], seens[k], k);
    assert vs[k] == Judge(env, looks[k], user, true, rows[k], seens[k]);
  }

  /** An import adds nothing exactly when the ledger had every record when that record was looked up. */
  lemma {:induction false} AddsNothing(env: ImportEnv, looks: seq<DB>, user: nat, rows: seq<Row>, vs: seq<Verdict>,
                                       seens: seq<Seen>)
    requires JudgedOver(env, looks, user, rows, vs, seens)
    ensures (forall k :: 0 <= k < |rows| ==> !vs[k].Fresh?)
       <==> (forall k :: 0 <= k < |rows| ==> RowStored(env, looks[k], user, rows[k]))
  {
    var n := 0;
    while n < |rows| && !vs[n].Fresh?
      invariant n <= |rows| && seens[n] == map[]
      invariant forall j :: 0 <= j < n ==> !vs[j].Fresh? && RowStored(env, looks[j], user, rows[j])
    {
      FirstFresh(env, looks, user, rows, vs, seens, n);
      n := n + 1;
    }
    if n < |rows| { FirstFresh(env, looks, user, rows, vs, seens, n); }
  }

  /** The first c rows are looked up before another import commits, the others after it. */
  predicate Overlaps(looks: seq<DB>, db: DB, last: DB, c: nat) {
    c <= |looks| && forall k :: 0 <= k < |looks| ==> looks[k] == if k < c then db else last
  }

  /**
   When an import of the same rows commits after c rows were looked up, the import adds nothing
   exactly when the ledger had the records of the first c rows even before, and each of the others
   was there or is the same entry as a stored one.  With c = 0 this is importing twice.
   */
  lemma {:induction false} OverlapAddsNothing(env: ImportEnv, user: nat, rows: seq<Row>, db: DB, recs: seq<Record>,
                                              last: DB, looks: seq<DB>, c: nat, us: seq<Verdict>, seens: seq<Seen>)
    requires Consistent(env) && Integrity(db) && Batch(env, user, recs, db) == Ok(last)
    requires JudgedOver(env, looks, user, rows, us, seens) && Overlaps(looks, db, last, c)
    ensures (forall k :: 0 <= k < |rows| ==> !us[k].Fresh?) <==>
      && (forall k :: 0 <= k < c ==> RowStored(env, db, user, rows[k]))
      && (forall k :: c <= k < |rows| ==> RowKnown(env, db, user, recs, rows[k]))
  {
    AddsNothing(env, looks, user, rows, us, seens);
    BatchCommitted(env, user, recs, db);
    var reqs := Resolve(user, recs, db).value.reqs;
    forall k | c <= k < |rows|
      ensures RowStored(env, last, user, rows[k]) <==> RowKnown(env, db, user, recs, rows[k])
    {
      StoredIsKnown(env, user, recs, db, last, reqs, rows[k]);
    }
    forall k | 0 <= k < |rows| ensures looks[k] == if k < c then db else last { }
  }

  /** Record k is stored under the k-th new key. */
  lemma {:induction false} EntryRow(env: ImportEnv, user: nat, recs: seq<Record>, base: nat, last: DB,
                                    reqs: seq<Request>, k: nat, r: Record)
    requires Consistent(env) && AllResolved(last, user, recs, reqs) && AllCreated(env.ledger, user, reqs, base, last)
    requires k < |recs| && SameEntry(env, recs[k], r)
    ensures DuplicateAt(env, last, user, r, base + k)
  {
    assert ResolvedRow(last, user, recs, reqs, k);
    assert CreatedRow(env.ledger, user, reqs, base, last, k);
    StoredIsEntry(env, user, last, recs, reqs, base, k, r);
  }

  predicate IsOk(r: Result<DB>, last: DB) { r == Ok(last) }

  /** The batch commits and leaves `last`; that much, without showing how a batch runs. */
  ghost predicate CommitsTo(env: ImportEnv, user: nat, recs: seq<Record>, db: DB, last: DB) {
    forall r {:trigger IsOk(r, last)} :: IsOk(r, last) ==> Batch(env, user, recs, db) == r
  }

  lemma {:induction false} BatchRequests(env: ImportEnv, user: nat, recs: seq<Record>, db: DB, last: DB)
    returns (reqs: seq<Request>)
    requires KeysBounded(db) && CommitsTo(env, user, recs, db, last)
    ensures Committed(env, user, recs, db, last, reqs)
  {
    assert IsOk(Ok(last), last);
    BatchCommitted(env, user, recs, db);
    reqs := Resolve(user, recs, db).value.reqs;
  }

  /** Row id is what every record that is the same entry as r is looked up as. */
  ghost predicate Holds(env: ImportEnv, db: DB, user: nat, r: Record, id: nat) {
    forall q {:trigger SameEntry(env, r, q)} :: SameEntry(env, r, q) ==> DuplicateAt(env, db, user, q, id)
  }

  lemma {:induction false} StoredRow(env: ImportEnv, user: nat, recs: seq<Record>, db: DB, last: DB, reqs: seq<Request>,
                                     k: nat, r: Record)
    requires Consistent(env) && Committed(env, user, recs, db, last, reqs) && k < |recs| && SameEntry(env, recs[k], r)
    ensures DuplicateAt(env, last, user, r, db.nextTx + k)
  {
    EntryRow(env, user, recs, db.nextTx, last, reqs, k, r);
  }

  lemma {:induction false} BatchStores(env: ImportEnv, user: nat, recs: seq<Record>, db: DB, last: DB, k: nat,
                                       r: Record)
    requires Consistent(env) && KeysBounded(db) && CommitsTo(env, user, recs, db, last)
    requires k < |recs| && SameEntry(env, recs[k], r)
    ensures DuplicateAt(env, last, user, r, db.nextTx + k)
  {
    var reqs := BatchRequests(env, user, recs, db, last);
    StoredRow(env, user, recs, db, last, reqs, k, r);
  }

  /** Record k of a batch is stored under the k-th new key. */
  lemma {:induction false} BatchHolds(env: ImportEnv, user: nat, recs: seq<Record>, db: DB, last: DB, k: nat)
    requires Consistent(env) && KeysBounded(db) && CommitsTo(env, user, recs, db, last) && k < |recs|
    ensures Holds(env, last, user, recs[k], db.nextTx + k)
  {
    forall q | SameEntry(env, recs[k], q) ensures DuplicateAt(env, last, user, q, db.nextTx + k) {
      BatchStores(env, user, recs, db, last, k, q);
    }
  }

  lemma {:induction false} BatchKeys(env: ImportEnv, user: nat, recs: seq<Record>, db: DB, last: DB)
    requires KeysBounded(db) && CommitsTo(env, user, recs, db, last)
    ensures KeysBounded(last) && last.nextTx == db.nextTx + |recs|
    ensures forall id | id in db.txs :: id in last.txs && last.txs[id] == db.txs[id]
  {
    var reqs := BatchRequests(env, user, recs, db, last);
  }

  lemma {:induction false} BatchRow(env: ImportEnv, user: nat, recs: seq<Record>, db: DB, last: DB, k: nat)
    requires KeysBounded(db) && CommitsTo(env, user, recs, db, last) && k < |recs|
    ensures db.nextTx + k in last.txs
  {
    var reqs := BatchRequests(env, user, recs, db, last);
    RecordRow(env, user, recs, db, last, reqs, k);
  }

  /** The batches that imports commit one after the other, whatever each of them has looked up and when. */
  ghost predicate Commits(env: ImportEnv, user: nat, batches: seq<seq<Record>>, dbs: seq<DB>) {
    && |dbs| == |batches| + 1 && KeysBounded(dbs[0])
    && forall n {:trigger batches[n]} :: 0 <= n < |batches| ==> CommitsTo(env, user, batches[n], dbs[n], dbs[n + 1])
  }

  /** Every batch stores all its records, under keys of its own. */
  lemma {:induction false} CommitsKeys(env: ImportEnv, user: nat, batches: seq<seq<Record>>, dbs: seq<DB>, m: nat,
                                       n: nat)
    requires Commits(env, user, batches, dbs) && m <= n <= |batches|
    ensures KeysBounded(dbs[m]) && KeysBounded(dbs[n])
    ensures m < n ==> dbs[m].nextTx + |batches[m]| <= dbs[n].nextTx
    decreases n
  {
    if n > 0 {
      CommitsKeys(env, user, batches, dbs, if m < n then m else n - 1, n - 1);
      assert CommitsTo(env, user, batches[n - 1], dbs[n - 1], dbs[n]);
      BatchKeys(env, user, batches[n - 1], dbs[n - 1], dbs[n]);
    }
  }

  lemma {:induction false} CommitHolds(env: ImportEnv, user: nat, batches: seq<seq<Record>>, dbs: seq<DB>, m: nat,
                                       k: nat)
    requires Consistent(env) && Commits(env, user, batches, dbs) && m < |batches| && k < |batches[m]|
    ensures Holds(env, dbs[m + 1], user, batches[m][k], dbs[m].nextTx + k)
  {
    CommitsKeys(env, user, batches, dbs, m, m);
    assert CommitsTo(env, user, batches[m], dbs[m], dbs[m + 1]);
    BatchHolds(env, user, batches[m], dbs[m], dbs[m + 1], k);
  }

  /** No later batch changes a stored row. */
  lemma {:induction false} RowStays(env: ImportEnv, user: nat, batches: seq<seq<Record>>, dbs: seq<DB>, m: nat, n: nat,
                                    id: nat)
    requires Commits(env, user, batches, dbs) && m <= n <= |batches| && id in dbs[m].txs
    ensures id in dbs[n].txs && dbs[n].txs[id] == dbs[m].txs[id]
    decreases n
  {
    if m < n {
      RowStays(env, user, batches, dbs, m, n - 1, id);
      CommitsKeys(env, user, batches, dbs, n - 1, n);
      assert CommitsTo(env, user, batches[n - 1], dbs[n - 1], dbs[n]);
      BatchKeys(env, user, batches[n - 1], dbs[n - 1], dbs[n]);
    }
  }

  /** Each import stores every record that it found fresh in a row of its own that stays, also one that
      another import has stored since it looked. */
  lemma {:induction false} OverlapStoresAgain(env: ImportEnv, user: nat, batches: seq<seq<Record>>, dbs: seq<DB>,
                                              m: nat, k: nat, n: nat)
    requires Consistent(env) && Commits(env, user, batches, dbs) && m < n <= |batches| && k < |batches[m]|
    ensures var id := dbs[m].nextTx + k;
      && Holds(env, dbs[m + 1], user, batches[m][k], id)
      && id in dbs[m + 1].txs && id in dbs[n].txs && dbs[n].txs[id] == dbs[m + 1].txs[id]
  {
    CommitHolds(env, user, batches, dbs, m, k);
    CommitsKeys(env, user, batches, dbs, m, m);
    assert CommitsTo(env, user, batches[m], dbs[m], dbs[m + 1]);
    BatchRow(env, user, batches[m], dbs[m], dbs[m + 1], k);
    RowStays(env, user, batches, dbs, m + 1, n, dbs[m].nextTx + k);
  }

  /** The rows of different imports are different rows. */
  lemma {:induction false} RowsApart(env: ImportEnv, user: nat, batches: seq<seq<Record>>, dbs: seq<DB>, m: nat, k: nat,
                                     n: nat, j: nat)
    requires Commits(env, user, batches, dbs) && m < n < |batches| && k < |batches[m]| && j < |batches[n]|
    ensures dbs[m].nextTx + k < dbs[n].nextTx + j
  {
    CommitsKeys(env, user, batches, dbs, m, n);
  }
}
