/** Report queries and the rows of the day, week and month tables. A query's GROUP BY result is any
    sequence of rows that groups the selected transactions; amounts are cents. */
module Reports {
  import opened Grouping
  import Ledger

  /** `category` and `account` are 0 when they do not restrict the report. */
  datatype Filter = Filter(start: int, end: int, category: nat, account: nat)

  predicate InReport(t: Ledger.Tx, user: nat, f: Filter) {
    && t.owner == user && f.start <= t.occurredAt <= f.end
    && (f.category > 0 ==> t.category == f.category)
    && (f.account > 0 ==> t.account == f.account)
  }

  /** The selected transactions among the rows with keys below n. */
  function Query(txs: map<nat, Ledger.Tx>, n: nat, user: nat, f: Filter): seq<Ledger.Tx> {
    if n == 0 then []
    else
      var last := if n - 1 in txs && InReport(txs[n - 1], user, f) then [txs[n - 1]] else [];
      Query(txs, n - 1, user, f) + last
  }

  /** A report reads, once each and in the order of their keys, exactly the user's transactions between its
      two times, both included, of its category and on its account where it names them. */
  lemma {:induction false} QueryReads(txs: map<nat, Ledger.Tx>, n: nat, user: nat, f: Filter) returns (ids: seq<nat>)
    ensures forall i, j :: 0 <= i < j < |ids| ==> ids[i] < ids[j]
    ensures forall id: nat :: id in ids <==>
      && id < n && id in txs && txs[id].owner == user
      && f.start <= txs[id].occurredAt && txs[id].occurredAt <= f.end
      && (f.category == 0 || f.category == txs[id].category) && (f.account == 0 || f.account == txs[id].account)
    ensures |Query(txs, n, user, f)| == |ids|
    ensures forall i :: 0 <= i < |ids| ==> ids[i] in txs && Query(txs, n, user, f)[i] == txs[ids[i]]
  {
    if n == 0 {
      ids := [];
    } else {
      ids := QueryReads(txs, n - 1, user, f);
      if n - 1 in txs && InReport(txs[n - 1], user, f) { ids := ids + [n - 1]; }
    }
  }

  /** The selected transactions as rows, each with the columns the query groups by. */
  function Items(txs: seq<Ledger.Tx>, key: Ledger.Tx -> Key): seq<Row> {
    seq(|txs|, i requires 0 <= i < |txs| => Row(key(txs[i]), Total(txs[i].cents, 1)))
  }

  /** SUM and COUNT over transactions, without any grouping. */
  function SumTx(txs: seq<Ledger.Tx>, p: Ledger.Tx -> bool): Total {
    if txs == [] then Total(0, 0)
    else
      var last := txs[|txs| - 1];
      Plus(SumTx(txs[..|txs| - 1], p), if p(last) then Total(last.cents, 1) else Total(0, 0))
  }

  lemma {:induction false} ItemsInit(txs: seq<Ledger.Tx>, key: Ledger.Tx -> Key)
    requires txs != []
    ensures var items, last := Items(txs, key), txs[|txs| - 1];
      && |items| == |txs| && items[..|items| - 1] == Items(txs[..|txs| - 1], key)
      && items[|items| - 1] == Row(key(last), Total(last.cents, 1))
  {
  }

  /** A condition on the grouping columns selects the transactions it describes. */
  lemma {:induction false} ItemsSum(txs: seq<Ledger.Tx>, key: Ledger.Tx -> Key, p: Key -> bool, q: Ledger.Tx -> bool)
    requires forall i :: 0 <= i < |txs| ==> p(key(txs[i])) == q(txs[i])
    ensures Sum(Items(txs, key), p) == SumTx(txs, q)
  {
    if txs != [] {
      var init, last := txs[..|txs| - 1], txs[|txs| - 1];
      ItemsSum(init, key, p, q) by {
        assert forall i :: 0 <= i < |init| ==> init[i] == txs[i];
      }
      assert p(key(last)) == q(last);
      ItemsInit(txs, key);
    }
  }

  /** Period and type; `cut` names the day, week or month of a time. */
  function PeriodAndType(cut: int -> int): Ledger.Tx -> Key {
    (t: Ledger.Tx) => Key(cut(t.occurredAt), 0, 0, t.kind)
  }

  // ---- conditions on the columns ----

  function Side(income: bool): Key -> bool { (k: Key) => (k.kind == "income") == income }

  function In(period: int): Key -> bool { (k: Key) => k.period == period }

  function At(period: int, income: bool): Key -> bool {
    (k: Key) => k.period == period && (k.kind == "income") == income
  }

  function Any(): Key -> bool { (k: Key) => true }

  // ---- one row per period ----

  datatype Cell = Cell(income: int, expense: int, count: int)

  /** What the rows hold for one period. */
  function CellOf(rows: seq<Row>, period: int): Cell {
    Cell(Sum(rows, At(period, true)).amount, Sum(rows, At(period, false)).amount, Sum(rows, In(period)).count)
  }

  /** What a map of periods holds for one period; missing means nothing. */
  function Held(grouped: map<int, Cell>, period: int): Cell {
    if period in grouped then grouped[period] else Cell(0, 0, 0)
  }

  predicate HasPeriod(rows: seq<Row>, period: int) {
    exists j :: 0 <= j < |rows| && rows[j].key.period == period
  }

  ghost predicate Reflects(grouped: map<int, Cell>, rows: seq<Row>) {
    && (forall p {:trigger Held(grouped, p)} :: Held(grouped, p) == CellOf(rows, p))
    && (forall p :: p in grouped <==> HasPeriod(rows, p))
  }

  /** A row is added to its period's cell, on the side of its type. */
  function AddRow(grouped: map<int, Cell>, row: Row): map<int, Cell> {
    var item := Held(grouped, row.key.period);
    var counted := item.(count := item.count + row.total.count);
    grouped[row.key.period :=
      if row.key.kind == "income" then counted.(income := item.income + row.total.amount)
      else counted.(expense := item.expense + row.total.amount)]
  }

  lemma {:induction false} HasPeriodNext(rows: seq<Row>, i: nat, p: int)
    requires i < |rows|
    ensures HasPeriod(rows[..i + 1], p) <==> HasPeriod(rows[..i], p) || rows[i].key.period == p
  {
    assert forall j :: 0 <= j < i ==> rows[..i + 1][j] == rows[..i][j];
    assert rows[..i + 1][i] == rows[i];
    if HasPeriod(rows[..i], p) {
      var j :| 0 <= j < i && rows[..i][j].key.period == p;
      assert rows[..i + 1][j].key.period == p;
    }
  }

  lemma {:induction false} CellNext(rows: seq<Row>, i: nat, p: int)
    requires i < |rows|
    ensures var c, row := CellOf(rows[..i], p), rows[i];
      CellOf(rows[..i + 1], p) ==
        if row.key.period != p then c
        else if row.key.kind == "income" then Cell(c.income + row.total.amount, c.expense, c.count + row.total.count)
        else Cell(c.income, c.expense + row.total.amount, c.count + row.total.count)
  {
    SumNext(rows, i, At(p, true));
    SumNext(rows, i, At(p, false));
    SumNext(rows, i, In(p));
  }

  lemma {:induction false} AddRowReflects(grouped: map<int, Cell>, rows: seq<Row>, i: nat)
    requires i < |rows| && Reflects(grouped, rows[..i])
    ensures Reflects(AddRow(grouped, rows[i]), rows[..i + 1])
  {
    var next := AddRow(grouped, rows[i]);
    forall p ensures Held(next, p) == CellOf(rows[..i + 1], p) {
      assert Held(grouped, p) == CellOf(rows[..i], p);
      CellNext(rows, i, p);
    }
    forall p ensures p in next <==> HasPeriod(rows[..i + 1], p) {
      HasPeriodNext(rows, i, p);
    }
  }

  function Ascending(): int -> (int, int) { (p: int) => (p, 0) }

  ghost predicate Increasing(ps: seq<int>) {
    forall i, j :: 0 <= i < j < |ps| ==> ps[i] < ps[j]
  }

  /** The elements of a set in ascending order: listed in whatever order the map gives them, then sorted. */
  method SortedPeriods(periods: set<int>) returns (ps: seq<int>)
    ensures Increasing(ps) && forall p :: p in ps <==> p in periods
  {
    var todo := periods;
    var listed: seq<int> := [];
    while todo != {}
      invariant Distinct(listed) && todo <= periods
      invariant forall p :: p in listed <==> p in periods && p !in todo
      decreases |todo|
    {
      assert (forall p :: p !in todo) ==> todo == {};
      var p :| p in todo;
      listed := listed + [p];
      todo := todo - {p};
    }
    ps := Sort(listed, Ascending());
    SortSorts(listed, Ascending());
    DistinctPermuted(listed, ps);
  }

  // ---- the summary tables ----

  datatype Summary = Summary(period: int, income: int, expense: int, balance: int, count: int)

  ghost predicate InOrder(rows: seq<Summary>) {
    forall i, j :: 0 <= i < j < |rows| ==> rows[i].period < rows[j].period
  }

  /** One row for each period that occurs, in order, with that period's own sums. */
  ghost predicate Summarised(items: seq<Row>, rows: seq<Summary>) {
    && InOrder(rows)
    && (forall p :: HasPeriod(items, p) <==> exists i :: 0 <= i < |rows| && rows[i].period == p)
    && (forall i :: 0 <= i < |rows| ==> SummaryOf(items, rows[i]))
  }

  predicate SummaryOf(items: seq<Row>, r: Summary) {
    && Cell(r.income, r.expense, r.count) == CellOf(items, r.period)
    && r.balance == r.income - r.expense
  }

  lemma {:induction false} GroupedCells(items: seq<Row>, rows: seq<Row>)
    requires Grouped(items, rows)
    ensures forall p {:trigger CellOf(rows, p)} :: CellOf(rows, p) == CellOf(items, p)
    ensures forall p {:trigger HasPeriod(items, p)} :: HasPeriod(items, p) <==> HasPeriod(rows, p)
  {
    forall p ensures CellOf(rows, p) == CellOf(items, p) {
      GroupingConserves(items, rows, At(p, true));
      GroupingConserves(items, rows, At(p, false));
      GroupingConserves(items, rows, In(p));
    }
    forall p ensures HasPeriod(items, p) <==> HasPeriod(rows, p) {
      SamePeriods(items, rows, p);
      SamePeriods(rows, items, p);
    }
  }

  lemma {:induction false} SamePeriods(items: seq<Row>, rows: seq<Row>, p: int)
    requires forall k :: k in Keys(items) ==> k in Keys(rows)
    ensures HasPeriod(items, p) ==> HasPeriod(rows, p)
  {
    if HasPeriod(items, p) {
      var j :| 0 <= j < |items| && items[j].key.period == p;
      assert Keys(items)[j] in Keys(rows);
      var i :| 0 <= i < |rows| && Keys(rows)[i] == items[j].key;
      assert rows[i].key.period == p;
    }
  }

  /** The rows of a summary table, from the rows of the query. */
  method SummaryTableRows(rows: seq<Row>, ghost items: seq<Row>) returns (result: seq<Summary>)
    requires Grouped(items, rows)
    ensures Summarised(items, result)
  {
    var grouped: map<int, Cell> := map[];
    for i := 0 to |rows|
      invariant Reflects(grouped, rows[..i])
    {
      AddRowReflects(grouped, rows, i);
      grouped := AddRow(grouped, rows[i]);
    }
    assert rows[..|rows|] == rows;
    GroupedCells(items, rows);
    var periods := SortedPeriods(grouped.Keys);
    result := [];
    for i := 0 to |periods|
      invariant |result| == i
      invariant forall j :: 0 <= j < i ==> result[j].period == periods[j] && SummaryOf(items, result[j])
    {
      assert periods[i] in periods;
      var item := grouped[periods[i]];
      assert item == Held(grouped, periods[i]);
      result := result + [Summary(periods[i], item.income, item.expense, item.income - item.expense, item.count)];
    }
    forall p ensures HasPeriod(items, p) <==> exists i :: 0 <= i < |result| && result[i].period == p {
      assert HasPeriod(items, p) <==> p in periods;
    }
  }

  // ---- conservation ----

  datatype Totals = Totals(income: int, expense: int, balance: int, count: int)

  function AddUp(rows: seq<Summary>): Totals {
    if rows == [] then Totals(0, 0, 0, 0)
    else
      var t, r := AddUp(rows[..|rows| - 1]), rows[|rows| - 1];
      Totals(t.income + r.income, t.expense + r.expense, t.balance + r.balance, t.count + r.count)
  }

  function PeriodKey(period: int): Key { Key(period, 0, 0, "") }

  function PeriodOf(): Key -> Key { (k: Key) => PeriodKey(k.period) }

  function PeriodKeys(rows: seq<Summary>): (ks: seq<Key>)
    ensures |ks| == |rows| && forall i :: 0 <= i < |rows| ==> ks[i] == PeriodKey(rows[i].period)
  {
    if rows == [] then [] else PeriodKeys(rows[..|rows| - 1]) + [PeriodKey(rows[|rows| - 1].period)]
  }

  lemma {:induction false} PeriodFiber(items: seq<Row>, p: int)
    ensures Sum(items, Fiber(PeriodOf(), Side(true), PeriodKey(p))) == Sum(items, At(p, true))
    ensures Sum(items, Fiber(PeriodOf(), Side(false), PeriodKey(p))) == Sum(items, At(p, false))
    ensures Sum(items, Fiber(PeriodOf(), Any(), PeriodKey(p))) == Sum(items, In(p))
  {
    SumSame(items, Fiber(PeriodOf(), Side(true), PeriodKey(p)), At(p, true));
    SumSame(items, Fiber(PeriodOf(), Side(false), PeriodKey(p)), At(p, false));
    SumSame(items, Fiber(PeriodOf(), Any(), PeriodKey(p)), In(p));
  }

  lemma {:induction false} AddUpSpreads(items: seq<Row>, rows: seq<Summary>)
    requires forall i :: 0 <= i < |rows| ==> SummaryOf(items, rows[i])
    ensures var ks, t := PeriodKeys(rows), AddUp(rows);
      && t.income == Spread(ks, items, PeriodOf(), Side(true)).amount
      && t.expense == Spread(ks, items, PeriodOf(), Side(false)).amount
      && t.count == Spread(ks, items, PeriodOf(), Any()).count
      && t.balance == t.income - t.expense
  {
    if rows != [] {
      var init := rows[..|rows| - 1];
      assert forall i :: 0 <= i < |init| ==> init[i] == rows[i];
      AddUpSpreads(items, init);
      assert PeriodKeys(rows)[..|rows| - 1] == PeriodKeys(init);
      PeriodFiber(items, rows[|rows| - 1].period);
    }
  }

  /** However the periods cut time, the rows add up to the items. */
  lemma {:induction false} SummaryConserves(items: seq<Row>, rows: seq<Summary>)
    requires Summarised(items, rows)
    ensures var t := AddUp(rows);
      && t.income == Sum(items, Side(true)).amount && t.expense == Sum(items, Side(false)).amount
      && t.count == Sum(items, Any()).count && t.balance == t.income - t.expense
  {
    var ks := PeriodKeys(rows);
    AddUpSpreads(items, rows);
    forall i | 0 <= i < |items| ensures PeriodOf()(items[i].key) in ks {
      assert HasPeriod(items, items[i].key.period);
      var j :| 0 <= j < |rows| && rows[j].period == items[i].key.period;
      assert ks[j] == PeriodOf()(items[i].key);
    }
    SpreadAll(ks, items, PeriodOf(), Side(true));
    SpreadAll(ks, items, PeriodOf(), Side(false));
    SpreadAll(ks, items, PeriodOf(), Any());
  }

  lemma {:induction false} CountAll(txs: seq<Ledger.Tx>)
    ensures SumTx(txs, (x: Ledger.Tx) => true).count == |txs|
  {
    if txs != [] { CountAll(txs[..|txs| - 1]); }
  }

  /** Day, week and month rows all add up to the income, expense and number of the selected
      transactions, whatever the cut. */
  lemma {:induction false} RowsConserve(txs: seq<Ledger.Tx>, cut: int -> int, rows: seq<Summary>)
    requires Summarised(Items(txs, PeriodAndType(cut)), rows)
    ensures var t := AddUp(rows);
      && t.income == SumTx(txs, (x: Ledger.Tx) => x.kind == "income").amount
      && t.expense == SumTx(txs, (x: Ledger.Tx) => x.kind != "income").amount
      && t.balance == t.income - t.expense && t.count == |txs|
  {
    var key := PeriodAndType(cut);
    SummaryConserves(Items(txs, key), rows);
    ItemsSum(txs, key, Side(true), (x: Ledger.Tx) => x.kind == "income");
    ItemsSum(txs, key, Side(false), (x: Ledger.Tx) => x.kind != "income");
    ItemsSum(txs, key, Any(), (x: Ledger.Tx) => true);
    CountAll(txs);
  }

  // ---- a month is its days ----

  /** The rows whose period belongs to a larger one. */
  function Part(rows: seq<Summary>, larger: int -> int, m: int): seq<Summary> {
    if rows == [] then []
    else
      var last := rows[|rows| - 1];
      Part(rows[..|rows| - 1], larger, m) + (if larger(last.period) == m then [last] else [])
  }

  lemma {:induction false} PartRows(rows: seq<Summary>, larger: int -> int, m: int)
    ensures forall r :: r in Part(rows, larger, m) <==> r in rows && larger(r.period) == m
  {
    if rows != [] {
      PartRows(rows[..|rows| - 1], larger, m);
      assert rows == rows[..|rows| - 1] + [rows[|rows| - 1]];
    }
  }

  lemma {:induction false} PartInOrder(rows: seq<Summary>, larger: int -> int, m: int)
    requires InOrder(rows)
    ensures InOrder(Part(rows, larger, m))
  {
    if rows != [] {
      var init, last := rows[..|rows| - 1], rows[|rows| - 1];
      assert InOrder(init);
      PartInOrder(init, larger, m);
      PartRows(init, larger, m);
      var part := Part(init, larger, m);
      forall i | 0 <= i < |part| ensures part[i].period < last.period {
        assert part[i] in part;
        var j :| 0 <= j < |init| && init[j] == part[i];
        assert rows[j].period < rows[|rows| - 1].period;
      }
    }
  }

  lemma {:induction false} PartKeys(rows: seq<Summary>, larger: int -> int, m: int, j: nat)
    requires j < |rows|
    ensures PeriodKey(rows[j].period) in PeriodKeys(Part(rows, larger, m)) <==> larger(rows[j].period) == m
  {
    PartRows(rows, larger, m);
    var part := Part(rows, larger, m);
    var ks := PeriodKeys(part);
    if larger(rows[j].period) == m {
      assert rows[j] in part;
      var n :| 0 <= n < |part| && part[n] == rows[j];
      assert ks[n] == PeriodKey(rows[j].period);
    } else {
      forall n | 0 <= n < |ks| ensures ks[n] != PeriodKey(rows[j].period) { assert part[n] in part; }
    }
  }

  /** The months that `larger` makes of the periods of `cut`. */
  function Larger(cut: int -> int, larger: int -> int): int -> int { (t: int) => larger(cut(t)) }

  /** The day rows of a month stand for the transactions of that month. */
  lemma {:induction false} PartCovers(txs: seq<Ledger.Tx>, cut: int -> int, larger: int -> int, days: seq<Summary>,
                                      m: int)
    requires Summarised(Items(txs, PeriodAndType(cut)), days)
    ensures DistinctKeys(PeriodKeys(Part(days, larger, m)))
    ensures forall i :: 0 <= i < |txs| ==>
      (PeriodKey(cut(txs[i].occurredAt)) in PeriodKeys(Part(days, larger, m)) <==> larger(cut(txs[i].occurredAt)) == m)
  {
    var items := Items(txs, PeriodAndType(cut));
    PartInOrder(days, larger, m);
    forall i | 0 <= i < |txs|
      ensures PeriodKey(cut(txs[i].occurredAt)) in PeriodKeys(Part(days, larger, m))
        <==> larger(cut(txs[i].occurredAt)) == m
    {
      assert HasPeriod(items, items[i].key.period);
      var j :| 0 <= j < |days| && days[j].period == items[i].key.period;
      PartKeys(days, larger, m, j);
    }
  }

  lemma {:induction false} PartSide(txs: seq<Ledger.Tx>, cut: int -> int, larger: int -> int, days: seq<Summary>,
                                    m: int, income: bool)
    requires Summarised(Items(txs, PeriodAndType(cut)), days)
    ensures Spread(PeriodKeys(Part(days, larger, m)), Items(txs, PeriodAndType(cut)), PeriodOf(), Side(income))
         == Sum(Items(txs, PeriodAndType(Larger(cut, larger))), At(m, income))
  {
    var items, ks := Items(txs, PeriodAndType(cut)), PeriodKeys(Part(days, larger, m));
    PartCovers(txs, cut, larger, days, m);
    SpreadWithin(ks, items, PeriodOf(), Side(income));
    var selected := (x: Ledger.Tx) => larger(cut(x.occurredAt)) == m && (x.kind == "income") == income;
    ItemsSum(txs, PeriodAndType(cut), Within(ks, PeriodOf(), Side(income)), selected);
    ItemsSum(txs, PeriodAndType(Larger(cut, larger)), At(m, income), selected);
  }

  lemma {:induction false} PartWhole(txs: seq<Ledger.Tx>, cut: int -> int, larger: int -> int, days: seq<Summary>,
                                     m: int)
    requires Summarised(Items(txs, PeriodAndType(cut)), days)
    ensures Spread(PeriodKeys(Part(days, larger, m)), Items(txs, PeriodAndType(cut)), PeriodOf(), Any())
         == Sum(Items(txs, PeriodAndType(Larger(cut, larger))), In(m))
  {
    var items, ks := Items(txs, PeriodAndType(cut)), PeriodKeys(Part(days, larger, m));
    PartCovers(txs, cut, larger, days, m);
    SpreadWithin(ks, items, PeriodOf(), Any());
    var selected := (x: Ledger.Tx) => larger(cut(x.occurredAt)) == m;
    ItemsSum(txs, PeriodAndType(cut), Within(ks, PeriodOf(), Any()), selected);
    ItemsSum(txs, PeriodAndType(Larger(cut, larger)), In(m), selected);
  }

  /** Every month row is the sum of that month's day rows. */
  lemma {:induction false} MonthsAreDays(txs: seq<Ledger.Tx>, cut: int -> int, larger: int -> int, days: seq<Summary>,
                                         months: seq<Summary>, i: nat)
    requires Summarised(Items(txs, PeriodAndType(cut)), days)
    requires Summarised(Items(txs, PeriodAndType(Larger(cut, larger))), months) && i < |months|
    ensures AddUp(Part(days, larger, months[i].period))
         == Totals(months[i].income, months[i].expense, months[i].balance, months[i].count)
  {
    var items, m := Items(txs, PeriodAndType(cut)), months[i].period;
    var part := Part(days, larger, m);
    PartRows(days, larger, m);
    forall j | 0 <= j < |part| ensures SummaryOf(items, part[j]) {
      assert part[j] in part;
    }
    AddUpSpreads(items, part);
    PartSide(txs, cut, larger, days, m, true);
    PartSide(txs, cut, larger, days, m, false);
    PartWhole(txs, cut, larger, days, m);
  }

  // ---- totals and the trend ----

  function TypeOnly(): Ledger.Tx -> Key { (x: Ledger.Tx) => Key(0, 0, 0, x.kind) }

  /** Income and expense of the whole report, from the rows grouped by type. */
  method SumIncomeExpense(rows: seq<Row>, ghost txs: seq<Ledger.Tx>) returns (income: int, expense: int)
    requires Grouped(Items(txs, TypeOnly()), rows)
    ensures income == SumTx(txs, (x: Ledger.Tx) => x.kind == "income").amount
    ensures expense == SumTx(txs, (x: Ledger.Tx) => x.kind != "income").amount
  {
    income, expense := 0, 0;
    for i := 0 to |rows|
      invariant income == Sum(rows[..i], Side(true)).amount
      invariant expense == Sum(rows[..i], Side(false)).amount
    {
      SumNext(rows, i, Side(true));
      SumNext(rows, i, Side(false));
      if rows[i].key.kind == "income" {
        income := income + rows[i].total.amount;
      } else {
        expense := expense + rows[i].total.amount;
      }
    }
    assert rows[..|rows|] == rows;
    ghost var items := Items(txs, TypeOnly());
    GroupingConserves(items, rows, Side(true));
    GroupingConserves(items, rows, Side(false));
    ItemsSum(txs, TypeOnly(), Side(true), (x: Ledger.Tx) => x.kind == "income");
    ItemsSum(txs, TypeOnly(), Side(false), (x: Ledger.Tx) => x.kind != "income");
  }

  datatype Point = Point(period: int, income: int, expense: int)

  /** One point for each period that occurs, in order, with that period's income and expense. */
  ghost predicate TrendOf(items: seq<Row>, points: seq<Point>) {
    && (forall i, j :: 0 <= i < j < |points| ==> points[i].period < points[j].period)
    && (forall p :: HasPeriod(items, p) <==> exists i :: 0 <= i < |points| && points[i].period == p)
    && (forall i :: 0 <= i < |points| ==> PointOf(items, points[i]))
  }

  predicate PointOf(items: seq<Row>, p: Point) {
    p.income == CellOf(items, p.period).income && p.expense == CellOf(items, p.period).expense
  }

  /** The trend overwrites where the summary tables add: a row sets its side of its period. */
  function SetRow(grouped: map<int, Cell>, row: Row): map<int, Cell> {
    var item := Held(grouped, row.key.period);
    grouped[row.key.period :=
      if row.key.kind == "income" then item.(income := row.total.amount) else item.(expense := row.total.amount)]
  }

  /** Only a period and one of the two types are filled in. */
  predicate TwoSided(rows: seq<Row>) {
    forall i :: 0 <= i < |rows| ==>
      && Ledger.IsKind(rows[i].key.kind)
      && rows[i].key == Key(rows[i].key.period, 0, 0, rows[i].key.kind)
  }

  /** With one row for a period and type, there is nothing to overwrite. */
  lemma {:induction false} FirstOfItsSide(rows: seq<Row>, i: nat)
    requires DistinctKeys(Keys(rows)) && TwoSided(rows) && i < |rows|
    ensures Sum(rows[..i], At(rows[i].key.period, rows[i].key.kind == "income")).amount == 0
  {
    forall j | 0 <= j < i ensures !At(rows[i].key.period, rows[i].key.kind == "income")(rows[..i][j].key) {
      assert Keys(rows)[j] != Keys(rows)[i];
    }
    SumNone(rows[..i], At(rows[i].key.period, rows[i].key.kind == "income"));
  }

  ghost predicate SameSums(a: map<int, Cell>, b: map<int, Cell>) {
    && a.Keys == b.Keys
    && forall p :: p in a ==> a[p].income == b[p].income && a[p].expense == b[p].expense
  }

  lemma {:induction false} SetIsAdd(grouped: map<int, Cell>, added: map<int, Cell>, rows: seq<Row>, i: nat)
    requires DistinctKeys(Keys(rows)) && TwoSided(rows) && i < |rows|
    requires SameSums(grouped, added) && Reflects(added, rows[..i])
    ensures SameSums(SetRow(grouped, rows[i]), AddRow(added, rows[i]))
  {
    FirstOfItsSide(rows, i);
    assert Held(added, rows[i].key.period) == CellOf(rows[..i], rows[i].key.period);
  }

  method Trend(rows: seq<Row>, ghost items: seq<Row>) returns (points: seq<Point>)
    requires Grouped(items, rows) && TwoSided(rows)
    ensures TrendOf(items, points)
  {
    var grouped: map<int, Cell> := map[];
    ghost var added: map<int, Cell> := map[];
    for i := 0 to |rows|
      invariant SameSums(grouped, added) && Reflects(added, rows[..i])
    {
      SetIsAdd(grouped, added, rows, i);
      AddRowReflects(added, rows, i);
      grouped, added := SetRow(grouped, rows[i]), AddRow(added, rows[i]);
    }
    assert rows[..|rows|] == rows;
    GroupedCells(items, rows);
    var periods := SortedPeriods(grouped.Keys);
    points := [];
    for i := 0 to |periods|
      invariant |points| == i
      invariant forall j :: 0 <= j < i ==> points[j].period == periods[j] && PointOf(items, points[j])
    {
      assert periods[i] in periods;
      var item := grouped[periods[i]];
      assert added[periods[i]] == Held(added, periods[i]);
      points := points + [Point(periods[i], item.income, item.expense)];
    }
    forall p ensures HasPeriod(items, p) <==> exists i :: 0 <= i < |points| && points[i].period == p {
      assert HasPeriod(items, p) <==> p in periods;
    }
  }
}
