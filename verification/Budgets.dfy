/** Budget execution: the expenses of a report's months by month and category, with an entry 0 for
    the whole month, and each budget's expense read from them. Months are known by their index. */
module Budgets {
  import opened Grouping
  import opened Reports
  import opened Clock
  import opened Months
  import Ledger

  // ---- expenses by month and category ----

  function MonthCategory(cut: int -> int): Ledger.Tx -> Key {
    (t: Ledger.Tx) => Key(cut(t.occurredAt), 0, t.category, "")
  }

  /** What the query selects: expenses of the listed months. */
  function Expenses(txs: seq<Ledger.Tx>, cut: int -> int, months: seq<int>): seq<Ledger.Tx> {
    if txs == [] then []
    else
      var last := txs[|txs| - 1];
      Expenses(txs[..|txs| - 1], cut, months)
        + (if IsExpense(last) && cut(last.occurredAt) in months then [last] else [])
  }

  predicate IsExpense(t: Ledger.Tx) { t.kind == "expense" }

  /** The expenses of one month, in one category or, for category 0, in all. */
  function Spending(cut: int -> int, month: int, category: nat): Ledger.Tx -> bool {
    (t: Ledger.Tx) => IsExpense(t) && cut(t.occurredAt) == month && (category == 0 || t.category == category)
  }

  function InCategory(month: int, category: nat): Key -> bool {
    (k: Key) => k.period == month && k.category == category
  }

  /** An entry holds its category's expenses; entry 0 the month's, next to any category 0. */
  function Spent(rows: seq<Row>, month: int, category: nat): int {
    Sum(rows, InCategory(month, category)).amount + if category == 0 then Sum(rows, In(month)).amount else 0
  }

  type Entries = map<int, map<nat, int>>

  /** Reading a Go map of maps: a missing entry reads as 0. */
  function Look(result: Entries, month: int, category: nat): int {
    if month in result && category in result[month] then result[month][category] else 0
  }

  predicate HasCategory(rows: seq<Row>, month: int, category: nat) {
    exists j :: 0 <= j < |rows| && rows[j].key.period == month && rows[j].key.category == category
  }

  ghost predicate Entered(result: Entries, rows: seq<Row>, months: seq<int>) {
    && (forall m: int, c: nat {:trigger Look(result, m, c)} :: Look(result, m, c) == Spent(rows, m, c))
    && (forall m :: m in result <==> m in months || HasPeriod(rows, m))
    && (forall m, c :: m in result ==> (c in result[m] <==> c == 0 || HasCategory(rows, m, c)))
  }

  /** Adds an amount to one entry of a month. */
  function Raise(result: Entries, month: int, category: nat, amount: int): Entries
    requires month in result
  {
    var raised: map<nat, int> := result[month][category := Look(result, month, category) + amount];
    result[month := raised]
  }

  /** A month without expenses yet. */
  function NewMonth(): map<nat, int> { map[0 := 0] }

  function AddExpense(result: Entries, row: Row): Entries {
    var m := row.key.period;
    var known := if m in result then result else result[m := NewMonth()];
    Raise(Raise(known, m, row.key.category, row.total.amount), m, 0, row.total.amount)
  }

  lemma {:induction false} SpentNext(rows: seq<Row>, i: nat, m: int, c: nat)
    requires i < |rows|
    ensures Spent(rows[..i + 1], m, c) == Spent(rows[..i], m, c)
      + (if rows[i].key.period == m && rows[i].key.category == c then rows[i].total.amount else 0)
      + (if rows[i].key.period == m && c == 0 then rows[i].total.amount else 0)
  {
    SumNext(rows, i, InCategory(m, c));
    SumNext(rows, i, In(m));
  }

  lemma {:induction false} HasCategoryNext(rows: seq<Row>, i: nat, m: int, c: nat)
    requires i < |rows|
    ensures HasCategory(rows[..i + 1], m, c) <==>
      HasCategory(rows[..i], m, c) || (rows[i].key.period == m && rows[i].key.category == c)
  {
    assert forall j :: 0 <= j < i ==> rows[..i + 1][j] == rows[..i][j];
    assert rows[..i + 1][i] == rows[i];
    if HasCategory(rows[..i], m, c) {
      var j :| 0 <= j < i && rows[..i][j].key.period == m && rows[..i][j].key.category == c;
      assert rows[..i + 1][j].key.period == m;
    }
  }

  lemma {:induction false} AddExpenseLooks(result: Entries, row: Row, m: int, c: nat)
    ensures Look(AddExpense(result, row), m, c) == Look(result, m, c)
      + (if row.key.period == m && row.key.category == c then row.total.amount else 0)
      + (if row.key.period == m && c == 0 then row.total.amount else 0)
  {
  }

  lemma {:induction false} AddExpenseEnters(result: Entries, rows: seq<Row>, i: nat, months: seq<int>)
    requires i < |rows| && Entered(result, rows[..i], months)
    ensures Entered(AddExpense(result, rows[i]), rows[..i + 1], months)
  {
    var next := AddExpense(result, rows[i]);
    forall m: int, c: nat ensures Look(next, m, c) == Spent(rows[..i + 1], m, c) {
      assert Look(result, m, c) == Spent(rows[..i], m, c);
      AddExpenseLooks(result, rows[i], m, c);
      SpentNext(rows, i, m, c);
    }
    forall m ensures m in next <==> m in months || HasPeriod(rows[..i + 1], m) {
      HasPeriodNext(rows, i, m);
    }
    forall m, c | m in next ensures c in next[m] <==> c == 0 || HasCategory(rows[..i + 1], m, c) {
      HasCategoryNext(rows, i, m, c);
      HasPeriodNext(rows, i, m);
      if m !in result {
        assert !HasPeriod(rows[..i], m) && !HasCategory(rows[..i], m, c);
      }
    }
  }

  lemma {:induction false} GroupedSpent(items: seq<Row>, rows: seq<Row>, m: int, c: nat)
    requires Grouped(items, rows)
    ensures Spent(rows, m, c) == Spent(items, m, c)
  {
    GroupingConserves(items, rows, InCategory(m, c));
    GroupingConserves(items, rows, In(m));
  }

  lemma {:induction false} GroupedKeys(items: seq<Row>, rows: seq<Row>, m: int, c: nat)
    requires Grouped(items, rows)
    ensures HasPeriod(items, m) <==> HasPeriod(rows, m)
    ensures HasCategory(items, m, c) <==> HasCategory(rows, m, c)
  {
    SamePeriods(items, rows, m);
    SamePeriods(rows, items, m);
    SameCategories(items, rows, m, c);
    SameCategories(rows, items, m, c);
  }

  lemma {:induction false} GroupedEnters(items: seq<Row>, rows: seq<Row>, result: Entries, months: seq<int>)
    requires Grouped(items, rows) && Entered(result, rows, months)
    ensures Entered(result, items, months)
  {
    forall m: int, c: nat ensures Look(result, m, c) == Spent(items, m, c) {
      GroupedSpent(items, rows, m, c);
      assert Look(result, m, c) == Spent(rows, m, c);
    }
    forall m ensures m in result <==> m in months || HasPeriod(items, m) {
      GroupedKeys(items, rows, m, 0);
    }
    forall m, c | m in result ensures c in result[m] <==> c == 0 || HasCategory(items, m, c) {
      GroupedKeys(items, rows, m, c);
    }
  }

  lemma {:induction false} SameCategories(items: seq<Row>, rows: seq<Row>, m: int, c: nat)
    requires forall k :: k in Keys(items) ==> k in Keys(rows)
    ensures HasCategory(items, m, c) ==> HasCategory(rows, m, c)
  {
    if HasCategory(items, m, c) {
      var j :| 0 <= j < |items| && items[j].key.period == m && items[j].key.category == c;
      assert Keys(items)[j] in Keys(rows);
      var i :| 0 <= i < |rows| && Keys(rows)[i] == items[j].key;
      assert rows[i].key.period == m;
    }
  }

  /** Every entry of every listed month, from the rows of the query. */
  method ExpenseByMonthCategory(rows: seq<Row>, months: seq<int>, ghost items: seq<Row>) returns (result: Entries)
    requires Grouped(items, rows)
    ensures Entered(result, items, months)
  {
    result := map[];
    for i := 0 to |months|
      invariant forall m :: m in result <==> m in months[..i]
      invariant forall m :: m in result ==> result[m] == NewMonth()
    {
      assert months[..i + 1] == months[..i] + [months[i]];
      result := result[months[i] := NewMonth()];
    }
    assert months[..|months|] == months && rows[..0] == [];
    forall m: int, c: nat ensures Look(result, m, c) == Spent(rows[..0], m, c) {
      if m in result && c in result[m] { assert result[m] == NewMonth(); }
    }
    for i := 0 to |rows|
      invariant Entered(result, rows[..i], months)
    {
      AddExpenseEnters(result, rows, i, months);
      result := AddExpense(result, rows[i]);
    }
    assert rows[..|rows|] == rows;
    GroupedEnters(items, rows, result, months);
  }

  // ---- entry 0 ----

  function AddEntries(entries: map<nat, int>, cs: seq<nat>): int {
    if cs == [] then 0
    else
      var last := cs[|cs| - 1];
      AddEntries(entries, cs[..|cs| - 1]) + (if last in entries then entries[last] else 0)
  }

  function CategoryKey(c: nat): Key { Key(0, 0, c, "") }

  function CategoryOf(): Key -> Key { (k: Key) => CategoryKey(k.category) }

  function CategoryKeys(cs: seq<nat>): (ks: seq<Key>)
    ensures |ks| == |cs| && forall i :: 0 <= i < |cs| ==> ks[i] == CategoryKey(cs[i])
  {
    if cs == [] then [] else CategoryKeys(cs[..|cs| - 1]) + [CategoryKey(cs[|cs| - 1])]
  }

  lemma {:induction false} EntriesSpread(result: Entries, items: seq<Row>, months: seq<int>, m: int, cs: seq<nat>)
    requires Entered(result, items, months) && m in result && 0 !in cs
    ensures AddEntries(result[m], cs) == Spread(CategoryKeys(cs), items, CategoryOf(), In(m)).amount
  {
    if cs != [] {
      var init, c := cs[..|cs| - 1], cs[|cs| - 1];
      assert cs == init + [c];
      EntriesSpread(result, items, months, m, init);
      assert CategoryKeys(cs)[..|cs| - 1] == CategoryKeys(init);
      assert Look(result, m, c) == Spent(items, m, c);
      SumSame(items, Fiber(CategoryOf(), In(m), CategoryKey(c)), InCategory(m, c));
    }
  }

  /** Row ids start at 1, so entry 0 of a month is the sum of all its other entries, listed in any
      order, and the total of the month. */
  lemma {:induction false} EntryZeroIsSum(result: Entries, items: seq<Row>, months: seq<int>, m: int, cs: seq<nat>)
    requires Entered(result, items, months) && m in result
    requires forall i :: 0 <= i < |items| ==> items[i].key.category >= 1
    requires Distinct(cs) && forall c :: c in cs <==> c in result[m] && c != 0
    ensures result[m][0] == AddEntries(result[m], cs) == Sum(items, In(m)).amount
  {
    EntriesSpread(result, items, months, m, cs);
    var ks := CategoryKeys(cs);
    forall i | 0 <= i < |items| && In(m)(items[i].key) ensures CategoryOf()(items[i].key) in ks {
      var c := items[i].key.category;
      assert HasCategory(items, m, c);
      var j :| 0 <= j < |cs| && cs[j] == c;
      assert ks[j] == CategoryKey(c);
    }
    SpreadAll(ks, items, CategoryOf(), In(m));
    assert Look(result, m, 0) == Spent(items, m, 0);
    SumNone(items, InCategory(m, 0));
  }

  // ---- all months ----

  function MonthKeys(months: seq<int>): (ks: seq<Key>)
    ensures |ks| == |months| && forall i :: 0 <= i < |months| ==> ks[i] == PeriodKey(months[i])
  {
    if months == [] then [] else MonthKeys(months[..|months| - 1]) + [PeriodKey(months[|months| - 1])]
  }

  /** Entry 0 of the listed months, added up. */
  function AddMonths(result: Entries, months: seq<int>): int {
    if months == [] then 0
    else AddMonths(result, months[..|months| - 1]) + Look(result, months[|months| - 1], 0)
  }

  lemma {:induction false} AddMonthsSpreads(result: Entries, items: seq<Row>, listed: seq<int>, months: seq<int>)
    requires Entered(result, items, listed)
    requires forall i :: 0 <= i < |items| ==> items[i].key.category >= 1
    ensures AddMonths(result, months) == Spread(MonthKeys(months), items, PeriodOf(), Any()).amount
  {
    if months != [] {
      var init, m := months[..|months| - 1], months[|months| - 1];
      AddMonthsSpreads(result, items, listed, init);
      assert MonthKeys(months)[..|months| - 1] == MonthKeys(init);
      assert Look(result, m, 0) == Spent(items, m, 0);
      SumNone(items, InCategory(m, 0));
      SumSame(items, Fiber(PeriodOf(), Any(), PeriodKey(m)), In(m));
    }
  }

  /** Entry 0 over all listed months, each once, is the sum of all rows, if every row's month is listed. */
  lemma {:induction false} MonthsAddUp(result: Entries, items: seq<Row>, months: seq<int>)
    requires Entered(result, items, months) && Increasing(months)
    requires forall i :: 0 <= i < |items| ==> items[i].key.category >= 1 && items[i].key.period in months
    ensures AddMonths(result, months) == Sum(items, Any()).amount
  {
    var ks := MonthKeys(months);
    AddMonthsSpreads(result, items, months, months);
    forall i | 0 <= i < |items| ensures PeriodOf()(items[i].key) in ks {
      var j :| 0 <= j < |months| && months[j] == items[i].key.period;
      assert ks[j] == PeriodOf()(items[i].key);
    }
    SpreadAll(ks, items, PeriodOf(), Any());
  }

  /** The index of the month that a time has on the wall of a zone. */
  function MonthIndex(cal: Calendar, offset: int): int -> int {
    (t: int) => Index(cal.monthOf(t + offset * NANOS_PER_MINUTE))
  }

  function Indices(months: seq<Month>): (r: seq<int>)
    ensures |r| == |months| && forall i :: 0 <= i < |months| ==> r[i] == Index(months[i])
  {
    if months == [] then [] else Indices(months[..|months| - 1]) + [Index(months[|months| - 1])]
  }

  lemma {:induction false} ListedIndex(cal: Calendar, start: Instant, end: Instant, months: seq<Month>, t: int)
    requires Follows(cal) && Zoned(start, end) && CoversEnd(cal, start, end) && start.nanos <= t <= end.nanos
    requires Lists(cal, start, end, months)
    ensures MonthIndex(cal, start.offset)(t) in Indices(months)
  {
    var at := Instant(t, start.offset);
    MonthsCover(cal, start, end, months);
    assert InRange(start, end, at);
    var j :| 0 <= j < |months| && months[j] == cal.monthOf(Wall(at));
    assert Indices(months)[j] == MonthIndex(cal, start.offset)(t);
  }

  lemma {:induction false} AllExpenses(txs: seq<Ledger.Tx>, cut: int -> int, months: seq<int>)
    requires forall t :: t in txs ==> cut(t.occurredAt) in months
    ensures SumTx(Expenses(txs, cut, months), (x: Ledger.Tx) => true) == SumTx(txs, IsExpense)
  {
    if txs != [] {
      var init, last := txs[..|txs| - 1], txs[|txs| - 1];
      assert forall t :: t in init ==> t in txs;
      assert last in txs;
      AllExpenses(init, cut, months);
      var kept := Expenses(init, cut, months);
      if IsExpense(last) {
        assert Expenses(txs, cut, months)[..|kept|] == kept;
      } else {
        assert Expenses(txs, cut, months) == kept;
      }
    }
  }

  /** For a range whose months are all listed, the entries 0 of its months add up to the report's whole
      expense. */
  lemma {:induction false} EntriesConserve(result: Entries, txs: seq<Ledger.Tx>, cal: Calendar, start: Instant,
                                           end: Instant, months: seq<Month>)
    requires Follows(cal) && Zoned(start, end) && CoversEnd(cal, start, end)
    requires Consecutive(months, Index(cal.monthOf(Wall(start)))) && Lists(cal, start, end, months)
    requires forall t :: t in txs ==> start.nanos <= t.occurredAt <= end.nanos && t.category >= 1
    requires var cut := MonthIndex(cal, start.offset);
      Entered(result, Items(Expenses(txs, cut, Indices(months)), MonthCategory(cut)), Indices(months))
    ensures AddMonths(result, Indices(months)) == SumTx(txs, IsExpense).amount
  {
    var cut, listed := MonthIndex(cal, start.offset), Indices(months);
    var selected := Expenses(txs, cut, listed);
    forall t | t in txs ensures cut(t.occurredAt) in listed {
      ListedIndex(cal, start, end, months, t.occurredAt);
    }
    ExpensesAre(txs, cut, listed);
    assert forall i :: 0 <= i < |selected| ==> selected[i] in selected;
    MonthsAddUp(result, Items(selected, MonthCategory(cut)), listed);
    ItemsSum(selected, MonthCategory(cut), Any(), (x: Ledger.Tx) => true);
    AllExpenses(txs, cut, listed);
  }

  // ---- budgets ----

  lemma {:induction false} ExpensesSum(txs: seq<Ledger.Tx>, cut: int -> int, months: seq<int>, month: int,
                                       category: nat)
    requires month in months
    ensures SumTx(Expenses(txs, cut, months), Spending(cut, month, category))
      == SumTx(txs, Spending(cut, month, category))
  {
    if txs != [] {
      var init, last := txs[..|txs| - 1], txs[|txs| - 1];
      ExpensesSum(init, cut, months, month, category);
      if IsExpense(last) && cut(last.occurredAt) in months {
        assert Expenses(txs, cut, months)[..|Expenses(init, cut, months)|] == Expenses(init, cut, months);
      } else {
        assert Expenses(txs, cut, months) == Expenses(init, cut, months);
      }
    }
  }

  lemma {:induction false} ExpensesAre(txs: seq<Ledger.Tx>, cut: int -> int, months: seq<int>)
    ensures forall t :: t in Expenses(txs, cut, months) ==> t in txs && IsExpense(t)
  {
    if txs != [] {
      var init, last := txs[..|txs| - 1], txs[|txs| - 1];
      ExpensesAre(init, cut, months);
      forall t | t in Expenses(txs, cut, months) ensures t in txs && IsExpense(t) {
        assert t in Expenses(init, cut, months) || (t == last && IsExpense(last));
        assert t in init || t == last;
      }
    }
  }

  lemma {:induction false} NoCategoryZero(selected: seq<Ledger.Tx>, cut: int -> int, month: int)
    requires forall i :: 0 <= i < |selected| ==> selected[i].category >= 1
    ensures Sum(Items(selected, MonthCategory(cut)), InCategory(month, 0)) == Total(0, 0)
  {
    SumNone(Items(selected, MonthCategory(cut)), InCategory(month, 0));
  }

  lemma {:induction false} MonthOfExpenses(selected: seq<Ledger.Tx>, cut: int -> int, month: int)
    requires forall i :: 0 <= i < |selected| ==> IsExpense(selected[i])
    ensures Sum(Items(selected, MonthCategory(cut)), In(month)) == SumTx(selected, Spending(cut, month, 0))
  {
    ItemsSum(selected, MonthCategory(cut), In(month), Spending(cut, month, 0));
  }

  lemma {:induction false} WholeMonth(txs: seq<Ledger.Tx>, cut: int -> int, months: seq<int>, month: int)
    requires forall t :: t in txs ==> t.category >= 1
    ensures var selected := Expenses(txs, cut, months);
      Spent(Items(selected, MonthCategory(cut)), month, 0) == SumTx(selected, Spending(cut, month, 0)).amount
  {
    var selected := Expenses(txs, cut, months);
    ExpensesAre(txs, cut, months);
    assert forall i :: 0 <= i < |selected| ==> selected[i] in selected;
    MonthOfExpenses(selected, cut, month);
    NoCategoryZero(selected, cut, month);
  }

  lemma {:induction false} OneCategory(txs: seq<Ledger.Tx>, cut: int -> int, months: seq<int>, month: int,
                                       category: nat)
    requires category >= 1
    ensures var selected := Expenses(txs, cut, months);
      Spent(Items(selected, MonthCategory(cut)), month, category)
        == SumTx(selected, Spending(cut, month, category)).amount
  {
    var selected, key := Expenses(txs, cut, months), MonthCategory(cut);
    ExpensesAre(txs, cut, months);
    assert forall i :: 0 <= i < |selected| ==> selected[i] in selected;
    ItemsSum(selected, key, InCategory(month, category), Spending(cut, month, category));
  }

  /** The entry a budget reads is the sum of exactly the transactions the budget is about. */
  lemma {:induction false} EntryMeaning(result: Entries, txs: seq<Ledger.Tx>, cut: int -> int, months: seq<int>,
                                        month: int, category: nat)
    requires Entered(result, Items(Expenses(txs, cut, months), MonthCategory(cut)), months)
    requires month in months && forall t :: t in txs ==> t.category >= 1
    ensures Look(result, month, category) == SumTx(txs, Spending(cut, month, category)).amount
  {
    ExpensesSum(txs, cut, months, month, category);
    if category == 0 {
      WholeMonth(txs, cut, months, month);
    } else {
      OneCategory(txs, cut, months, month, category);
    }
  }

  datatype Budget = Budget(id: nat, month: int, category: nat, cents: int)

  datatype Execution = Execution(budget: Budget, expense: int, remaining: int, usage: real)

  /** A line is about its budget's own expenses, what remains, and their share of the budget. */
  ghost predicate Executes(e: Execution, b: Budget, txs: seq<Ledger.Tx>, cut: int -> int) {
    && e.budget == b
    && e.expense == SumTx(txs, Spending(cut, b.month, b.category)).amount
    && e.remaining + e.expense == b.cents
    && (b.cents > 0 ==> e.usage * b.cents as real == e.expense as real)
    && (b.cents <= 0 ==> e.usage == 0.0)
  }

  function Execute(b: Budget, expense: int): Execution {
    Execution(b, expense, b.cents - expense, if b.cents > 0 then expense as real / b.cents as real else 0.0)
  }

  ghost predicate Meant(entries: Entries, months: seq<int>, txs: seq<Ledger.Tx>, cut: int -> int) {
    forall m: int, c: nat {:trigger Look(entries, m, c)} :: m in months ==>
      Look(entries, m, c) == SumTx(txs, Spending(cut, m, c)).amount
  }

  lemma {:induction false} EntriesMeant(entries: Entries, months: seq<int>, txs: seq<Ledger.Tx>, cut: int -> int)
    requires Entered(entries, Items(Expenses(txs, cut, months), MonthCategory(cut)), months)
    requires forall t :: t in txs ==> t.category >= 1
    ensures Meant(entries, months, txs, cut)
  {
    forall m: int, c: nat | m in months ensures Look(entries, m, c) == SumTx(txs, Spending(cut, m, c)).amount {
      EntryMeaning(entries, txs, cut, months, m, c);
    }
  }

  lemma {:induction false} ExecuteExecutes(entries: Entries, months: seq<int>, txs: seq<Ledger.Tx>, cut: int -> int,
                                           b: Budget)
    requires Meant(entries, months, txs, cut) && b.month in months
    ensures Executes(Execute(b, Look(entries, b.month, b.category)), b, txs, cut)
  {
  }

  /** The lines of the budgets, from the entries they read. */
  method Lines(budgets: seq<Budget>, entries: Entries, ghost months: seq<int>, ghost txs: seq<Ledger.Tx>,
               ghost cut: int -> int)
    returns (result: seq<Execution>)
    requires Meant(entries, months, txs, cut)
    requires forall i :: 0 <= i < |budgets| ==> budgets[i].month in months
    ensures |result| == |budgets|
    ensures forall i :: 0 <= i < |result| ==> Executes(result[i], budgets[i], txs, cut)
  {
    result := [];
    for i := 0 to |budgets|
      invariant |result| == i
      invariant forall j :: 0 <= j < i ==> Executes(result[j], budgets[j], txs, cut)
    {
      ExecuteExecutes(entries, months, txs, cut, budgets[i]);
      result := result + [Execute(budgets[i], Look(entries, budgets[i].month, budgets[i].category))];
    }
  }

  /** One line for each budget, in the order of the query. */
  method BudgetExecution(budgets: seq<Budget>, months: seq<int>, rows: seq<Row>, ghost txs: seq<Ledger.Tx>,
                         ghost cut: int -> int)
    returns (result: seq<Execution>)
    requires Grouped(Items(Expenses(txs, cut, months), MonthCategory(cut)), rows)
    requires forall i :: 0 <= i < |budgets| ==> budgets[i].month in months
    requires forall t :: t in txs ==> t.category >= 1
    ensures |result| == |budgets|
    ensures forall i :: 0 <= i < |result| ==> Executes(result[i], budgets[i], txs, cut)
  {
    if |budgets| == 0 {
      return [];
    }
    var entries := ExpenseByMonthCategory(rows, months, Items(Expenses(txs, cut, months), MonthCategory(cut)));
    EntriesMeant(entries, months, txs, cut);
    result := Lines(budgets, entries, months, txs, cut);
  }
}
