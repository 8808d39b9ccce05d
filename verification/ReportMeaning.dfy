/** What the numbers of the reports are, said of the transactions themselves: no grouping, no columns
    and no conditions under a name. */
module ReportMeaning {
  import opened Grouping
  import opened Reports
  import Ledger
  import BalanceTrend
  import Budgets

  /** A sum over transactions starts at nothing and takes each that satisfies the condition once, with its
      cents, and no other. */
  lemma {:induction false} SumsCount(txs: seq<Ledger.Tx>, k: nat, p: Ledger.Tx -> bool)
    requires k < |txs|
    ensures var before, after := SumTx(txs[..k], p), SumTx(txs[..k + 1], p);
      && after.amount == before.amount + (if p(txs[k]) then txs[k].cents else 0)
      && after.count == before.count + (if p(txs[k]) then 1 else 0)
    ensures SumTx([], p) == Total(0, 0)
  {
    assert txs[..k + 1][..k] == txs[..k];
  }

  // ---- the tables and the trend ----

  lemma {:induction false} PeriodOccurs(txs: seq<Ledger.Tx>, cut: int -> int, p: int)
    ensures HasPeriod(Items(txs, PeriodAndType(cut)), p)
      <==> exists j :: 0 <= j < |txs| && cut(txs[j].occurredAt) == p
  {
    var items := Items(txs, PeriodAndType(cut));
    if HasPeriod(items, p) {
      var j :| 0 <= j < |items| && items[j].key.period == p;
      assert cut(txs[j].occurredAt) == p;
    }
    if j :| 0 <= j < |txs| && cut(txs[j].occurredAt) == p {
      assert items[j].key.period == p;
    }
  }

  /** Income, everything else and the number of transactions of a period. */
  lemma {:induction false} CellMeans(txs: seq<Ledger.Tx>, cut: int -> int, p: int)
    ensures var c := CellOf(Items(txs, PeriodAndType(cut)), p);
      && c.income == SumTx(txs, (t: Ledger.Tx) => cut(t.occurredAt) == p && t.kind == "income").amount
      && c.expense == SumTx(txs, (t: Ledger.Tx) => cut(t.occurredAt) == p && t.kind != "income").amount
      && c.count == SumTx(txs, (t: Ledger.Tx) => cut(t.occurredAt) == p).count
  {
    var key := PeriodAndType(cut);
    ItemsSum(txs, key, At(p, true), (t: Ledger.Tx) => cut(t.occurredAt) == p && t.kind == "income");
    ItemsSum(txs, key, At(p, false), (t: Ledger.Tx) => cut(t.occurredAt) == p && t.kind != "income");
    ItemsSum(txs, key, In(p), (t: Ledger.Tx) => cut(t.occurredAt) == p);
  }

  /** A table has one row for each period in which something occurred, in order. */
  lemma {:induction false} TableLists(txs: seq<Ledger.Tx>, cut: int -> int, rows: seq<Summary>, p: int)
    requires Summarised(Items(txs, PeriodAndType(cut)), rows)
    ensures forall i, j :: 0 <= i < j < |rows| ==> rows[i].period < rows[j].period
    ensures (exists i :: 0 <= i < |rows| && rows[i].period == p)
       <==> (exists j :: 0 <= j < |txs| && cut(txs[j].occurredAt) == p)
  {
    PeriodOccurs(txs, cut, p);
    assert HasPeriod(Items(txs, PeriodAndType(cut)), p) <==> exists i :: 0 <= i < |rows| && rows[i].period == p;
  }

  /** Each row shows its period's income, its other amounts, their difference and how many transactions
      there were. */
  lemma {:induction false} TableRowMeans(txs: seq<Ledger.Tx>, cut: int -> int, rows: seq<Summary>, i: nat)
    requires Summarised(Items(txs, PeriodAndType(cut)), rows) && i < |rows|
    ensures var r := rows[i];
      && r.income == SumTx(txs, (t: Ledger.Tx) => cut(t.occurredAt) == r.period && t.kind == "income").amount
      && r.expense == SumTx(txs, (t: Ledger.Tx) => cut(t.occurredAt) == r.period && t.kind != "income").amount
      && r.count == SumTx(txs, (t: Ledger.Tx) => cut(t.occurredAt) == r.period).count
      && r.balance == r.income - r.expense
  {
    CellMeans(txs, cut, rows[i].period);
    assert SummaryOf(Items(txs, PeriodAndType(cut)), rows[i]);
  }

  /** The trend has one point for each such period, in order. */
  lemma {:induction false} TrendLists(txs: seq<Ledger.Tx>, cut: int -> int, points: seq<Point>, p: int)
    requires TrendOf(Items(txs, PeriodAndType(cut)), points)
    ensures forall i, j :: 0 <= i < j < |points| ==> points[i].period < points[j].period
    ensures (exists i :: 0 <= i < |points| && points[i].period == p)
       <==> (exists j :: 0 <= j < |txs| && cut(txs[j].occurredAt) == p)
  {
    PeriodOccurs(txs, cut, p);
    assert HasPeriod(Items(txs, PeriodAndType(cut)), p) <==> exists i :: 0 <= i < |points| && points[i].period == p;
  }

  /** Each point shows its period's income and other amounts. */
  lemma {:induction false} TrendPointMeans(txs: seq<Ledger.Tx>, cut: int -> int, points: seq<Point>, i: nat)
    requires TrendOf(Items(txs, PeriodAndType(cut)), points) && i < |points|
    ensures var p := points[i];
      && p.income == SumTx(txs, (t: Ledger.Tx) => cut(t.occurredAt) == p.period && t.kind == "income").amount
      && p.expense == SumTx(txs, (t: Ledger.Tx) => cut(t.occurredAt) == p.period && t.kind != "income").amount
  {
    CellMeans(txs, cut, points[i].period);
    assert PointOf(Items(txs, PeriodAndType(cut)), points[i]);
  }

  // ---- the running balances ----

  /** Everything but an expense adds to an account's balance. */
  lemma {:induction false} SignedMeans(txs: seq<Ledger.Tx>, names: map<nat, string>, cut: int -> int, p: Key -> bool,
                                       into: Ledger.Tx -> bool, out: Ledger.Tx -> bool)
    requires forall t :: t in txs && t.account in names ==>
      var k := Key(cut(t.occurredAt), t.account, 0, t.kind);
      (into(t) <==> p(k) && t.kind != "expense") && (out(t) <==> p(k) && t.kind == "expense")
    requires forall t :: t in txs && t.account !in names ==> !into(t) && !out(t)
    ensures BalanceTrend.Signed(Items(BalanceTrend.Joined(txs, names), BalanceTrend.PeriodAccountType(cut)), p)
         == SumTx(txs, into).amount - SumTx(txs, out).amount
  {
    var joined, key := BalanceTrend.Joined(txs, names), BalanceTrend.PeriodAccountType(cut);
    BalanceTrend.JoinedKinds(txs, names);
    forall i | 0 <= i < |joined|
      ensures BalanceTrend.Credit(p)(key(joined[i])) == into(joined[i])
      ensures BalanceTrend.Debit(p)(key(joined[i])) == out(joined[i])
    {
      assert joined[i] in joined;
    }
    ItemsSum(joined, key, BalanceTrend.Credit(p), into);
    ItemsSum(joined, key, BalanceTrend.Debit(p), out);
    BalanceTrend.JoinedSum(txs, names, into);
    BalanceTrend.JoinedSum(txs, names, out);
    BalanceTrend.SumTxSame(txs, into, BalanceTrend.JoinedOf(names, into));
    BalanceTrend.SumTxSame(txs, out, BalanceTrend.JoinedOf(names, out));
  }

  lemma {:induction false} PairOccurs(txs: seq<Ledger.Tx>, names: map<nat, string>, cut: int -> int, p: int, a: nat)
    ensures BalanceTrend.HasPair(Items(BalanceTrend.Joined(txs, names), BalanceTrend.PeriodAccountType(cut)),
                                 BalanceTrend.Pair(p, a))
      <==> a in names && exists i :: 0 <= i < |txs| && cut(txs[i].occurredAt) == p && txs[i].account == a
  {
    var joined := BalanceTrend.Joined(txs, names);
    var items := Items(joined, BalanceTrend.PeriodAccountType(cut));
    JoinedHas(txs, names);
    if BalanceTrend.HasPair(items, BalanceTrend.Pair(p, a)) {
      var j :| 0 <= j < |items|
        && BalanceTrend.Pair(items[j].key.period, items[j].key.account) == BalanceTrend.Pair(p, a);
      assert joined[j] in joined;
      var i :| 0 <= i < |txs| && txs[i] == joined[j];
    }
    if i :| a in names && 0 <= i < |txs| && cut(txs[i].occurredAt) == p && txs[i].account == a {
      var t := txs[i];
      assert t in joined;
      var j :| 0 <= j < |joined| && joined[j] == t;
      assert items[j].key.period == p && items[j].key.account == a;
    }
  }

  lemma {:induction false} JoinedHas(txs: seq<Ledger.Tx>, names: map<nat, string>)
    ensures forall t :: t in BalanceTrend.Joined(txs, names) <==> t in txs && t.account in names
  {
    if txs != [] {
      JoinedHas(txs[..|txs| - 1], names);
      assert txs == txs[..|txs| - 1] + [txs[|txs| - 1]];
    }
  }

  /** The trend of balances lists, by period and then account, each account of the table in each period
      in which something occurred on it. */
  lemma {:induction false} BalancesList(txs: seq<Ledger.Tx>, names: map<nat, string>, cut: int -> int,
                                        points: seq<BalanceTrend.BalancePoint>, p: int, a: nat)
    requires BalanceTrend.Balances(Items(BalanceTrend.Joined(txs, names), BalanceTrend.PeriodAccountType(cut)),
                                   names, points)
    ensures forall i, j :: 0 <= i < j < |points| ==>
      || points[i].period < points[j].period
      || (points[i].period == points[j].period && points[i].account < points[j].account)
    ensures (exists i :: 0 <= i < |points| && points[i].period == p && points[i].account == a)
       <==> a in names && exists j :: 0 <= j < |txs| && cut(txs[j].occurredAt) == p && txs[j].account == a
  {
    var items := Items(BalanceTrend.Joined(txs, names), BalanceTrend.PeriodAccountType(cut));
    PairOccurs(txs, names, cut, p, a);
    assert BalanceTrend.HasPoint(points, p, a) <==> BalanceTrend.HasPair(items, BalanceTrend.Pair(p, a));
  }

  /** Each point shows, under the account's name, what the period adds to the account and what all periods
      up to it add; only expenses count against it. */
  lemma {:induction false} BalancePointMeans(txs: seq<Ledger.Tx>, names: map<nat, string>, cut: int -> int,
                                             points: seq<BalanceTrend.BalancePoint>, i: nat)
    requires BalanceTrend.Balances(Items(BalanceTrend.Joined(txs, names), BalanceTrend.PeriodAccountType(cut)),
                                   names, points) && i < |points|
    ensures var point := points[i];
      var p, a := point.period, point.account;
      && a in names && point.name == names[a]
      && point.net
           == SumTx(txs, (t: Ledger.Tx) => t.account == a && cut(t.occurredAt) == p && t.kind != "expense").amount
            - SumTx(txs, (t: Ledger.Tx) => t.account == a && cut(t.occurredAt) == p && t.kind == "expense").amount
      && point.balance
           == SumTx(txs, (t: Ledger.Tx) => t.account == a && cut(t.occurredAt) <= p && t.kind != "expense").amount
            - SumTx(txs, (t: Ledger.Tx) => t.account == a && cut(t.occurredAt) <= p && t.kind == "expense").amount
  {
    var p, a := points[i].period, points[i].account;
    assert BalanceTrend.PointRight(
        Items(BalanceTrend.Joined(txs, names), BalanceTrend.PeriodAccountType(cut)), names, points[i]);
    SignedMeans(txs, names, cut, BalanceTrend.OnPair(BalanceTrend.Pair(p, a)),
                (t: Ledger.Tx) => t.account == a && cut(t.occurredAt) == p && t.kind != "expense",
                (t: Ledger.Tx) => t.account == a && cut(t.occurredAt) == p && t.kind == "expense");
    SignedMeans(txs, names, cut, BalanceTrend.UpTo(p, a),
                (t: Ledger.Tx) => t.account == a && cut(t.occurredAt) <= p && t.kind != "expense",
                (t: Ledger.Tx) => t.account == a && cut(t.occurredAt) <= p && t.kind == "expense");
  }

  // ---- budgets ----

  /** A budget's line shows the expenses of its month, in its category or, for category 0, in all: what is
      left of the budget, and their share of it, which is 0 for a budget of nothing. */
  lemma {:induction false} LineMeans(e: Budgets.Execution, b: Budgets.Budget, txs: seq<Ledger.Tx>, cut: int -> int)
    requires Budgets.Executes(e, b, txs, cut)
    ensures e.budget.id == b.id && e.budget.month == b.month && e.budget.category == b.category
    ensures e.expense == SumTx(txs, (t: Ledger.Tx) =>
      t.kind == "expense" && cut(t.occurredAt) == b.month && (b.category > 0 ==> t.category == b.category)).amount
    ensures e.remaining == b.cents - e.expense
    ensures b.cents > 0 ==> e.usage == e.expense as real / b.cents as real
    ensures b.cents <= 0 ==> e.usage == 0.0
  {
    var meant := (t: Ledger.Tx) =>
      t.kind == "expense" && cut(t.occurredAt) == b.month && (b.category > 0 ==> t.category == b.category);
    forall i | 0 <= i < |txs| ensures meant(txs[i]) == Budgets.Spending(cut, b.month, b.category)(txs[i]) {
      var t := txs[i];
      var all := b.category == 0 || t.category == b.category;
      assert meant(t) <==> Budgets.IsExpense(t) && cut(t.occurredAt) == b.month && all;
    }
    BalanceTrend.SumTxSame(txs, meant, Budgets.Spending(cut, b.month, b.category));
  }
}
