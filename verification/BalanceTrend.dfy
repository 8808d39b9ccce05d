/** The running balance of every account: rows grouped by period, account and type are netted by
    period and account, sorted by account to accumulate, and sorted again by period. */
module BalanceTrend {
  import opened Grouping
  import opened Reports
  import Ledger
  import LedgerConservation
  import LedgerIntegrity

  function PeriodAccountType(cut: int -> int): Ledger.Tx -> Key {
    (t: Ledger.Tx) => Key(cut(t.occurredAt), t.account, 0, t.kind)
  }

  // ---- signed sums ----

  function Credit(p: Key -> bool): Key -> bool { (k: Key) => p(k) && k.kind != "expense" }

  function Debit(p: Key -> bool): Key -> bool { (k: Key) => p(k) && k.kind == "expense" }

  /** What the selected rows add to a balance: expenses count against it. */
  function Signed(rows: seq<Row>, p: Key -> bool): int {
    Sum(rows, Credit(p)).amount - Sum(rows, Debit(p)).amount
  }

  function Pair(period: int, account: nat): Key { Key(period, account, 0, "") }

  function PairOf(): Key -> Key { (k: Key) => Pair(k.period, k.account) }

  function OnPair(pair: Key): Key -> bool { (k: Key) => Pair(k.period, k.account) == pair }

  function OfAccount(a: nat): Key -> bool { (k: Key) => k.account == a }

  /** An account's rows up to and including a period. */
  function UpTo(period: int, a: nat): Key -> bool { (k: Key) => k.account == a && k.period <= period }

  predicate HasPair(rows: seq<Row>, pair: Key) {
    exists j :: 0 <= j < |rows| && Pair(rows[j].key.period, rows[j].key.account) == pair
  }

  // ---- netting ----

  function NetHeld(net: map<Key, int>, pair: Key): int {
    if pair in net then net[pair] else 0
  }

  ghost predicate Nets(net: map<Key, int>, rows: seq<Row>) {
    && (forall k {:trigger NetHeld(net, k)} :: NetHeld(net, k) == Signed(rows, OnPair(k)))
    && (forall k :: k in net <==> HasPair(rows, k))
  }

  function AddNet(net: map<Key, int>, row: Row): map<Key, int> {
    var pair := Pair(row.key.period, row.key.account);
    var delta := if row.key.kind == "expense" then -row.total.amount else row.total.amount;
    net[pair := NetHeld(net, pair) + delta]
  }

  lemma {:induction false} SignedNext(rows: seq<Row>, i: nat, p: Key -> bool)
    requires i < |rows|
    ensures Signed(rows[..i + 1], p) == Signed(rows[..i], p) +
      if !p(rows[i].key) then 0
      else if rows[i].key.kind == "expense" then -rows[i].total.amount else rows[i].total.amount
  {
    SumNext(rows, i, Credit(p));
    SumNext(rows, i, Debit(p));
  }

  lemma {:induction false} AddNetNets(net: map<Key, int>, rows: seq<Row>, i: nat)
    requires i < |rows| && Nets(net, rows[..i])
    ensures Nets(AddNet(net, rows[i]), rows[..i + 1])
  {
    var next := AddNet(net, rows[i]);
    forall k ensures NetHeld(next, k) == Signed(rows[..i + 1], OnPair(k)) {
      assert NetHeld(net, k) == Signed(rows[..i], OnPair(k));
      SignedNext(rows, i, OnPair(k));
    }
    forall k ensures k in next <==> HasPair(rows[..i + 1], k) {
    }
  }

  // ---- accumulating ----

  /** The net amounts of account `a` over the listed pairs. */
  function Running(ks: seq<Key>, items: seq<Row>, a: nat): int {
    if ks == [] then 0
    else
      var last := ks[|ks| - 1];
      Running(ks[..|ks| - 1], items, a) + if last.account == a then Signed(items, OnPair(last)) else 0
  }

  ghost predicate Pairs(ks: seq<Key>) {
    forall i :: 0 <= i < |ks| ==> ks[i] == Pair(ks[i].period, ks[i].account)
  }

  lemma {:induction false} FiberOfAccount(items: seq<Row>, a: nat, k: Key)
    ensures Sum(items, Fiber(PairOf(), Credit(OfAccount(a)), k)) ==
      if k.account == a then Sum(items, Credit(OnPair(k))) else Total(0, 0)
    ensures Sum(items, Fiber(PairOf(), Debit(OfAccount(a)), k)) ==
      if k.account == a then Sum(items, Debit(OnPair(k))) else Total(0, 0)
  {
    if k.account == a {
      SumSame(items, Fiber(PairOf(), Credit(OfAccount(a)), k), Credit(OnPair(k)));
      SumSame(items, Fiber(PairOf(), Debit(OfAccount(a)), k), Debit(OnPair(k)));
    } else {
      SumNone(items, Fiber(PairOf(), Credit(OfAccount(a)), k));
      SumNone(items, Fiber(PairOf(), Debit(OfAccount(a)), k));
    }
  }

  lemma {:induction false} RunningSpreads(ks: seq<Key>, items: seq<Row>, a: nat)
    ensures Running(ks, items, a)
      == Spread(ks, items, PairOf(), Credit(OfAccount(a))).amount
        - Spread(ks, items, PairOf(), Debit(OfAccount(a))).amount
  {
    if ks != [] {
      RunningSpreads(ks[..|ks| - 1], items, a);
      FiberOfAccount(items, a, ks[|ks| - 1]);
    }
  }

  /** All pairs with data, once each, accounts together and periods ascending. */
  ghost predicate Listing(ks: seq<Key>, items: seq<Row>) {
    && DistinctKeys(ks) && Sorted(ks, ByAccount()) && Pairs(ks)
    && (forall k :: k in ks <==> HasPair(items, k))
  }

  function ByAccount(): Key -> (int, int) { (k: Key) => (k.account as int, k.period) }

  /** In the listing, an account's pairs so far are those up to the current period. */
  lemma {:induction false} ListedSoFar(ks: seq<Key>, items: seq<Row>, j: nat, i: nat)
    requires Listing(ks, items) && j < |ks| && i < |items| && items[i].key.account == ks[j].account
    ensures PairOf()(items[i].key) in ks[..j + 1] <==> items[i].key.period <= ks[j].period
  {
    var pair := PairOf()(items[i].key);
    assert HasPair(items, pair);
    var n :| 0 <= n < |ks| && ks[n] == pair;
    if n <= j {
      assert ks[..j + 1][n] == pair;
      assert n < j ==> Below(ByAccount()(ks[n]), ByAccount()(ks[j]));
    } else {
      assert Below(ByAccount()(ks[j]), ByAccount()(ks[n]));
      assert ks[j] != ks[n];
      assert forall m :: 0 <= m <= j ==> ks[m] != ks[n];
    }
  }

  lemma {:induction false} SumSoFar(ks: seq<Key>, items: seq<Row>, j: nat, q: Key -> bool, r: Key -> bool)
    requires Listing(ks, items) && j < |ks|
    requires forall i :: 0 <= i < |items| ==>
      (q(items[i].key) ==> items[i].key.account == ks[j].account)
      && r(items[i].key) == (q(items[i].key) && items[i].key.period <= ks[j].period)
    ensures Spread(ks[..j + 1], items, PairOf(), q) == Sum(items, r)
  {
    var sofar := ks[..j + 1];
    SpreadWithin(sofar, items, PairOf(), q);
    forall i | 0 <= i < |items| ensures Within(sofar, PairOf(), q)(items[i].key) == r(items[i].key) {
      if q(items[i].key) { ListedSoFar(ks, items, j, i); }
    }
    SumSame(items, Within(sofar, PairOf(), q), r);
  }

  lemma {:induction false} CreditSoFar(ks: seq<Key>, items: seq<Row>, j: nat, a: nat, p: int)
    requires Listing(ks, items) && j < |ks| && ks[j] == Pair(p, a)
    ensures Spread(ks[..j + 1], items, PairOf(), Credit(OfAccount(a))) == Sum(items, Credit(UpTo(p, a)))
  {
    SumSoFar(ks, items, j, Credit(OfAccount(a)), Credit(UpTo(p, a)));
  }

  lemma {:induction false} DebitSoFar(ks: seq<Key>, items: seq<Row>, j: nat, a: nat, p: int)
    requires Listing(ks, items) && j < |ks| && ks[j] == Pair(p, a)
    ensures Spread(ks[..j + 1], items, PairOf(), Debit(OfAccount(a))) == Sum(items, Debit(UpTo(p, a)))
  {
    SumSoFar(ks, items, j, Debit(OfAccount(a)), Debit(UpTo(p, a)));
  }

  /** So the running amount at a pair is the account's signed sum up to that period. */
  lemma {:induction false} RunningIsBalance(ks: seq<Key>, items: seq<Row>, j: nat)
    requires Listing(ks, items) && j < |ks|
    ensures Running(ks[..j + 1], items, ks[j].account) == Signed(items, UpTo(ks[j].period, ks[j].account))
  {
    RunningSpreads(ks[..j + 1], items, ks[j].account);
    CreditSoFar(ks, items, j, ks[j].account, ks[j].period);
    DebitSoFar(ks, items, j, ks[j].account, ks[j].period);
  }

  // ---- the points ----

  datatype BalancePoint = BalancePoint(period: int, account: nat, name: string, net: int, balance: int)

  /** A point's net and balance are the account's signed sums in its period and up to it. */
  predicate PointRight(items: seq<Row>, names: map<nat, string>, p: BalancePoint) {
    && p.account in names && p.name == names[p.account]
    && p.net == Signed(items, OnPair(Pair(p.period, p.account)))
    && p.balance == Signed(items, UpTo(p.period, p.account))
  }

  predicate Before(p: BalancePoint, q: BalancePoint) {
    p.period < q.period || (p.period == q.period && p.account < q.account)
  }

  ghost predicate Ordered(points: seq<BalancePoint>) {
    forall i, j :: 0 <= i < j < |points| ==> Before(points[i], points[j])
  }

  predicate HasPoint(points: seq<BalancePoint>, period: int, account: nat) {
    exists i :: 0 <= i < |points| && points[i].period == period && points[i].account == account
  }

  /** One point for each period and account with data, by period and then account. */
  ghost predicate Balances(items: seq<Row>, names: map<nat, string>, points: seq<BalancePoint>) {
    && Ordered(points)
    && (forall p: int, a: nat :: HasPoint(points, p, a) <==> HasPair(items, Pair(p, a)))
    && (forall i :: 0 <= i < |points| ==> PointRight(items, names, points[i]))
  }

  function ByPeriod(): BalancePoint -> (int, int) { (p: BalancePoint) => (p.period, p.account as int) }

  /** The points of a listing. */
  ghost predicate PointsOf(ks: seq<Key>, items: seq<Row>, names: map<nat, string>, points: seq<BalancePoint>) {
    && |points| == |ks|
    && forall j :: 0 <= j < |ks| ==>
         Pair(points[j].period, points[j].account) == ks[j] && PointRight(items, names, points[j])
  }

  lemma {:induction false} SortedPoints(ks: seq<Key>, items: seq<Row>, names: map<nat, string>,
                                        points: seq<BalancePoint>)
    requires Listing(ks, items) && PointsOf(ks, items, names, points)
    ensures Balances(items, names, Sort(points, ByPeriod()))
  {
    var sorted := Sort(points, ByPeriod());
    SortSorts(points, ByPeriod());
    forall i, j | 0 <= i < j < |points| ensures points[i] != points[j] {
      assert ks[i] != ks[j];
    }
    DistinctPermuted(points, sorted);
    forall i | 0 <= i < |sorted| ensures PointRight(items, names, sorted[i]) {
      assert sorted[i] in points;
    }
    forall i, j | 0 <= i < j < |sorted| ensures Before(sorted[i], sorted[j]) {
      assert Below(ByPeriod()(sorted[i]), ByPeriod()(sorted[j]));
      assert sorted[i] != sorted[j];
    }
    forall p: int, a: nat ensures HasPoint(sorted, p, a) <==> HasPair(items, Pair(p, a)) {
      SamePoints(points, sorted, p, a);
      SamePoints(sorted, points, p, a);
      assert HasPair(items, Pair(p, a)) <==> Pair(p, a) in ks;
      if Pair(p, a) in ks {
        var j :| 0 <= j < |ks| && ks[j] == Pair(p, a);
        assert points[j].period == p;
      }
    }
  }

  lemma {:induction false} SamePoints(points: seq<BalancePoint>, others: seq<BalancePoint>, p: int, a: nat)
    requires forall x :: x in points ==> x in others
    ensures HasPoint(points, p, a) ==> HasPoint(others, p, a)
  {
    if HasPoint(points, p, a) {
      var i :| 0 <= i < |points| && points[i].period == p && points[i].account == a;
      assert points[i] in points;
      var j :| 0 <= j < |others| && others[j] == points[i];
    }
  }

  lemma {:induction false} GroupedNets(items: seq<Row>, rows: seq<Row>, net: map<Key, int>)
    requires Grouped(items, rows) && Nets(net, rows)
    ensures Nets(net, items)
  {
    forall k ensures NetHeld(net, k) == Signed(items, OnPair(k)) {
      assert NetHeld(net, k) == Signed(rows, OnPair(k));
      GroupingConserves(items, rows, Credit(OnPair(k)));
      GroupingConserves(items, rows, Debit(OnPair(k)));
    }
    forall k ensures k in net <==> HasPair(items, k) {
      SamePairs(items, rows, k);
      SamePairs(rows, items, k);
    }
  }

  lemma {:induction false} SamePairs(items: seq<Row>, rows: seq<Row>, k: Key)
    requires forall k :: k in Keys(items) ==> k in Keys(rows)
    ensures HasPair(items, k) ==> HasPair(rows, k)
  {
    if HasPair(items, k) {
      var j :| 0 <= j < |items| && Pair(items[j].key.period, items[j].key.account) == k;
      assert Keys(items)[j] in Keys(rows);
      var i :| 0 <= i < |rows| && Keys(rows)[i] == items[j].key;
      assert Pair(rows[i].key.period, rows[i].key.account) == k;
    }
  }

  /** First pass: one key for each pair, with its net amount. */
  method NetByPair(rows: seq<Row>) returns (keys: seq<Key>, net: map<Key, int>)
    ensures DistinctKeys(keys) && Pairs(keys) && (forall k :: k in keys <==> k in net) && Nets(net, rows)
  {
    keys, net := [], map[];
    for i := 0 to |rows|
      invariant DistinctKeys(keys) && Pairs(keys) && (forall k :: k in keys <==> k in net)
      invariant Nets(net, rows[..i])
    {
      var pair := Pair(rows[i].key.period, rows[i].key.account);
      if pair !in net {
        keys := keys + [pair];
      }
      AddNetNets(net, rows, i);
      net := AddNet(net, rows[i]);
    }
    assert rows[..|rows|] == rows;
  }

  function RunningHeld(running: map<nat, int>, a: nat): int {
    if a in running then running[a] else 0
  }

  ghost predicate RunsTo(running: map<nat, int>, ks: seq<Key>, items: seq<Row>) {
    forall a {:trigger RunningHeld(running, a)} :: RunningHeld(running, a) == Running(ks, items, a)
  }

  lemma {:induction false} RunsNext(running: map<nat, int>, ks: seq<Key>, i: nat, items: seq<Row>)
    requires i < |ks| && RunsTo(running, ks[..i], items)
    ensures var a := ks[i].account;
      var balance := RunningHeld(running, a) + Signed(items, OnPair(ks[i]));
      balance == Running(ks[..i + 1], items, a) && RunsTo(running[a := balance], ks[..i + 1], items)
  {
    var a := ks[i].account;
    var next := running[a := RunningHeld(running, a) + Signed(items, OnPair(ks[i]))];
    assert ks[..i + 1][..i] == ks[..i];
    forall b ensures RunningHeld(next, b) == Running(ks[..i + 1], items, b) {
      assert RunningHeld(running, b) == Running(ks[..i], items, b);
    }
  }

  /** One more key adds its point, and leaves the running amounts of the keys so far. */
  lemma {:induction false} PointsNext(ks: seq<Key>, items: seq<Row>, names: map<nat, string>, i: nat,
                                      points: seq<BalancePoint>, point: BalancePoint)
    requires i < |ks| && PointsOf(ks[..i], items, names, points)
    requires Pair(point.period, point.account) == ks[i] && PointRight(items, names, point)
    ensures PointsOf(ks[..i + 1], items, names, points + [point])
  {
    assert forall j :: 0 <= j < i ==> ks[..i + 1][j] == ks[..i][j];
  }

  /** The point of a key whose account had that running amount before. */
  function PointOf(key: Key, names: map<nat, string>, before: int, net: int): BalancePoint
    requires key.account in names
  {
    BalancePoint(key.period, key.account, names[key.account], net, before + net)
  }

  lemma {:induction false} PointOfRight(ks: seq<Key>, items: seq<Row>, names: map<nat, string>, i: nat,
                                        running: map<nat, int>)
    requires Listing(ks, items) && i < |ks| && ks[i].account in names && RunsTo(running, ks[..i], items)
    ensures PointRight(items, names,
                       PointOf(ks[i], names, RunningHeld(running, ks[i].account), Signed(items, OnPair(ks[i]))))
  {
    RunsNext(running, ks, i, items);
    RunningIsBalance(ks, items, i);
  }

  /** Second pass: accumulate over the sorted keys. */
  method Accumulate(ks: seq<Key>, net: map<Key, int>, names: map<nat, string>, ghost items: seq<Row>)
    returns (points: seq<BalancePoint>)
    requires Listing(ks, items) && Nets(net, items)
    requires forall i :: 0 <= i < |ks| ==> ks[i] in net && ks[i].account in names
    ensures PointsOf(ks, items, names, points)
  {
    var running: map<nat, int> := map[];
    points := [];
    assert RunsTo(running, ks[..0], items);
    for i := 0 to |ks|
      invariant RunsTo(running, ks[..i], items) && PointsOf(ks[..i], items, names, points)
    {
      var key := ks[i];
      assert net[key] == NetHeld(net, key) == Signed(items, OnPair(key));
      RunsNext(running, ks, i, items);
      PointOfRight(ks, items, names, i, running);
      var point := PointOf(key, names, RunningHeld(running, key.account), net[key]);
      PointsNext(ks, items, names, i, points, point);
      running := running[key.account := point.balance];
      points := points + [point];
    }
    assert ks[..|ks|] == ks;
  }

  // ---- the join with the accounts ----

  /** The transactions whose account the join finds. */
  function Joined(txs: seq<Ledger.Tx>, names: map<nat, string>): seq<Ledger.Tx> {
    if txs == [] then []
    else
      var last := txs[|txs| - 1];
      Joined(txs[..|txs| - 1], names) + (if last.account in names then [last] else [])
  }

  function JoinedOf(names: map<nat, string>, p: Ledger.Tx -> bool): Ledger.Tx -> bool {
    (x: Ledger.Tx) => x.account in names && p(x)
  }

  lemma {:induction false} SumSnoc(txs: seq<Ledger.Tx>, t: Ledger.Tx, p: Ledger.Tx -> bool)
    ensures SumTx(txs + [t], p) == Plus(SumTx(txs, p), if p(t) then Total(t.cents, 1) else Total(0, 0))
  {
    assert (txs + [t])[..|txs|] == txs;
  }

  lemma {:induction false} JoinedSum(txs: seq<Ledger.Tx>, names: map<nat, string>, p: Ledger.Tx -> bool)
    ensures SumTx(Joined(txs, names), p) == SumTx(txs, JoinedOf(names, p))
  {
    if txs != [] {
      var init, last := txs[..|txs| - 1], txs[|txs| - 1];
      JoinedSum(init, names, p);
      if last.account in names {
        SumSnoc(Joined(init, names), last, p);
      } else {
        assert Joined(txs, names) == Joined(init, names);
      }
    }
  }

  lemma {:induction false} JoinedKinds(txs: seq<Ledger.Tx>, names: map<nat, string>)
    ensures forall t :: t in Joined(txs, names) ==> t in txs && t.account in names
  {
    if txs != [] {
      JoinedKinds(txs[..|txs| - 1], names);
      assert forall t :: t in txs[..|txs| - 1] ==> t in txs;
    }
  }

  /** So every grouped row has its account's name. */
  lemma {:induction false} GroupedNamed(txs: seq<Ledger.Tx>, cut: int -> int, names: map<nat, string>, rows: seq<Row>)
    requires Grouped(Items(Joined(txs, names), PeriodAccountType(cut)), rows)
    ensures forall i :: 0 <= i < |rows| ==> rows[i].key.account in names
  {
    var joined := Joined(txs, names);
    var items := Items(joined, PeriodAccountType(cut));
    JoinedKinds(txs, names);
    forall i | 0 <= i < |rows| ensures rows[i].key.account in names {
      assert Keys(rows)[i] in Keys(items);
      var j :| 0 <= j < |items| && Keys(items)[j] == rows[i].key;
      assert joined[j] in joined;
    }
  }

  /** `names` are the names in the accounts table, and the rows those of the query that joins it. */
  method AccountBalanceTrend(rows: seq<Row>, names: map<nat, string>, ghost txs: seq<Ledger.Tx>, ghost cut: int -> int)
    returns (points: seq<BalancePoint>)
    requires Grouped(Items(Joined(txs, names), PeriodAccountType(cut)), rows)
    ensures Balances(Items(Joined(txs, names), PeriodAccountType(cut)), names, points)
  {
    ghost var items := Items(Joined(txs, names), PeriodAccountType(cut));
    GroupedNamed(txs, cut, names, rows);
    var keys, net := NetByPair(rows);
    var ks := Sort(keys, ByAccount());
    SortSorts(keys, ByAccount());
    DistinctPermuted(keys, ks);
    GroupedNets(items, rows, net);
    forall i | 0 <= i < |ks|
      ensures ks[i] == Pair(ks[i].period, ks[i].account) && ks[i] in net && ks[i].account in names {
      assert ks[i] in keys;
      assert HasPair(rows, ks[i]);
    }
    points := Accumulate(ks, net, names, items);
    SortedPoints(ks, items, names, points);
    points := Sort(points, ByPeriod());
  }

  // ---- the last points ----

  predicate HasAccount(points: seq<BalancePoint>, a: nat) {
    exists i :: 0 <= i < |points| && points[i].account == a
  }

  /** The last point of each account. */
  function Lasts(points: seq<BalancePoint>): seq<BalancePoint> {
    if points == [] then []
    else if HasAccount(points[1..], points[0].account) then Lasts(points[1..])
    else [points[0]] + Lasts(points[1..])
  }

  ghost predicate OneEach(points: seq<BalancePoint>) {
    forall i, j :: 0 <= i < j < |points| ==> points[i].account != points[j].account
  }

  lemma {:induction false} LastsFrom(points: seq<BalancePoint>, x: BalancePoint)
    requires x in Lasts(points)
    ensures x in points
  {
    if x != points[0] || HasAccount(points[1..], points[0].account) { LastsFrom(points[1..], x); }
  }

  lemma {:induction false} LastsOneEach(points: seq<BalancePoint>)
    ensures OneEach(Lasts(points))
  {
    if points != [] {
      LastsOneEach(points[1..]);
      if !HasAccount(points[1..], points[0].account) {
        var rest := Lasts(points[1..]);
        forall j | 0 <= j < |rest| ensures rest[j].account != points[0].account {
          LastsFrom(points[1..], rest[j]);
          var i :| 0 <= i < |points[1..]| && points[1..][i] == rest[j];
        }
      }
    }
  }

  /** Every account has its last point, and no point of the account comes after it. */
  lemma {:induction false} LastsReach(points: seq<BalancePoint>, i: nat) returns (x: BalancePoint)
    requires Ordered(points) && i < |points|
    ensures x in Lasts(points) && x.account == points[i].account && points[i].period <= x.period
  {
    if HasAccount(points[1..], points[0].account) || i > 0 {
      var k := i;
      if i == 0 {
        var n :| 0 <= n < |points[1..]| && points[1..][n].account == points[0].account;
        assert points[1..][n] == points[n + 1];
        k := n + 1;
        assert Before(points[0], points[k]);
      }
      assert points[1..][k - 1] == points[k];
      assert Ordered(points[1..]) by {
        var rest := points[1..];
        assert forall i :: 0 <= i < |rest| ==> rest[i] == points[i + 1];
      }
      x := LastsReach(points[1..], k - 1);
    } else {
      x := points[0];
    }
  }

  function Balance(points: seq<BalancePoint>): int {
    if points == [] then 0 else Balance(points[..|points| - 1]) + points[|points| - 1].balance
  }

  function AccountKey(a: nat): Key { Key(0, a, 0, "") }

  function AccountOf(): Key -> Key { (k: Key) => AccountKey(k.account) }

  function AccountKeys(points: seq<BalancePoint>): seq<Key> {
    seq(|points|, i requires 0 <= i < |points| => AccountKey(points[i].account))
  }

  lemma {:induction false} SideOfAccount(items: seq<Row>, a: nat)
    ensures Sum(items, Fiber(AccountOf(), Credit(Any()), AccountKey(a))) == Sum(items, Credit(OfAccount(a)))
    ensures Sum(items, Fiber(AccountOf(), Debit(Any()), AccountKey(a))) == Sum(items, Debit(OfAccount(a)))
  {
    SumSame(items, Fiber(AccountOf(), Credit(Any()), AccountKey(a)), Credit(OfAccount(a)));
    SumSame(items, Fiber(AccountOf(), Debit(Any()), AccountKey(a)), Debit(OfAccount(a)));
  }

  lemma {:induction false} AccountKeysInit(points: seq<BalancePoint>)
    requires points != []
    ensures var ks := AccountKeys(points);
      |ks| == |points| && ks[..|ks| - 1] == AccountKeys(points[..|points| - 1])
      && ks[|ks| - 1] == AccountKey(points[|points| - 1].account)
  {
  }

  ghost predicate Whole(items: seq<Row>, lasts: seq<BalancePoint>) {
    forall i :: 0 <= i < |lasts| ==> lasts[i].balance == Signed(items, OfAccount(lasts[i].account))
  }

  lemma {:induction false} BalancesSpread(items: seq<Row>, lasts: seq<BalancePoint>)
    requires Whole(items, lasts)
    ensures Balance(lasts)
         == Spread(AccountKeys(lasts), items, AccountOf(), Credit(Any())).amount
          - Spread(AccountKeys(lasts), items, AccountOf(), Debit(Any())).amount
  {
    if lasts != [] {
      var init := lasts[..|lasts| - 1];
      BalancesSpread(items, init) by {
        assert forall i :: 0 <= i < |init| ==> init[i] == lasts[i];
      }
      AccountKeysInit(lasts);
      SideOfAccount(items, lasts[|lasts| - 1].account);
    }
  }

  lemma {:induction false} LastOfAccount(items: seq<Row>, period: int, a: nat)
    requires forall i :: 0 <= i < |items| && items[i].key.account == a ==> items[i].key.period <= period
    ensures Signed(items, UpTo(period, a)) == Signed(items, OfAccount(a))
  {
    SumSame(items, Credit(UpTo(period, a)), Credit(OfAccount(a)));
    SumSame(items, Debit(UpTo(period, a)), Debit(OfAccount(a)));
  }

  /** The last balance of an account is its whole signed sum. */
  lemma {:induction false} LastIsWhole(items: seq<Row>, names: map<nat, string>, points: seq<BalancePoint>,
                                       x: BalancePoint)
    requires Balances(items, names, points) && x in Lasts(points)
    ensures x.balance == Signed(items, OfAccount(x.account))
  {
    LastsFrom(points, x);
    LastsOneEach(points);
    var lasts := Lasts(points);
    forall i | 0 <= i < |items| && items[i].key.account == x.account ensures items[i].key.period <= x.period {
      assert HasPair(items, Pair(items[i].key.period, x.account));
      assert HasPoint(points, items[i].key.period, x.account);
      var n :| 0 <= n < |points| && points[n].period == items[i].key.period && points[n].account == x.account;
      var y := LastsReach(points, n);
    }
    LastOfAccount(items, x.period, x.account);
  }

  lemma {:induction false} LastsCover(items: seq<Row>, names: map<nat, string>, points: seq<BalancePoint>)
    requires Balances(items, names, points)
    ensures var ks := AccountKeys(Lasts(points));
      DistinctKeys(ks) && forall i :: 0 <= i < |items| ==> AccountOf()(items[i].key) in ks
  {
    LastsOneEach(points);
    var lasts := Lasts(points);
    forall i | 0 <= i < |items| ensures AccountOf()(items[i].key) in AccountKeys(lasts) {
      var k := items[i].key;
      assert HasPair(items, Pair(k.period, k.account));
      assert HasPoint(points, k.period, k.account);
      var n :| 0 <= n < |points| && points[n].period == k.period && points[n].account == k.account;
      var y := LastsReach(points, n);
      var j :| 0 <= j < |lasts| && lasts[j] == y;
      assert AccountKeys(lasts)[j] == AccountOf()(k);
    }
  }

  /** The accounts' last balances add up to everything: credits less debits of all rows. */
  lemma {:induction false} LastsAddUp(items: seq<Row>, names: map<nat, string>, points: seq<BalancePoint>)
    requires Balances(items, names, points)
    ensures Balance(Lasts(points)) == Signed(items, Any())
  {
    var lasts := Lasts(points);
    forall i | 0 <= i < |lasts| ensures lasts[i].balance == Signed(items, OfAccount(lasts[i].account)) {
      LastIsWhole(items, names, points, lasts[i]);
    }
    BalancesSpread(items, lasts);
    LastsCover(items, names, points);
    SpreadAll(AccountKeys(lasts), items, AccountOf(), Credit(Any()));
    SpreadAll(AccountKeys(lasts), items, AccountOf(), Debit(Any()));
  }

  // ---- net income ----

  function Income(): Ledger.Tx -> bool { (x: Ledger.Tx) => x.kind == "income" }

  function Spending(): Ledger.Tx -> bool { (x: Ledger.Tx) => x.kind != "income" }

  /** The last balances sum to the income less the spending of the transactions that the join finds. */
  lemma {:induction false} LastsAreJoined(txs: seq<Ledger.Tx>, cut: int -> int, names: map<nat, string>,
                                          points: seq<BalancePoint>)
    requires Balances(Items(Joined(txs, names), PeriodAccountType(cut)), names, points)
    requires forall i :: 0 <= i < |txs| ==> Ledger.IsKind(txs[i].kind)
    ensures Balance(Lasts(points))
         == SumTx(txs, JoinedOf(names, Income())).amount - SumTx(txs, JoinedOf(names, Spending())).amount
  {
    var joined := Joined(txs, names);
    JoinedKinds(txs, names);
    forall i | 0 <= i < |joined| ensures Ledger.IsKind(joined[i].kind) { assert joined[i] in txs; }
    LastsAddUp(Items(joined, PeriodAccountType(cut)), names, points);
    ItemsSum(joined, PeriodAccountType(cut), Credit(Any()), Income());
    ItemsSum(joined, PeriodAccountType(cut), Debit(Any()), Spending());
    JoinedSum(txs, names, Income());
    JoinedSum(txs, names, Spending());
  }

  lemma {:induction false} SumTxSame(txs: seq<Ledger.Tx>, p: Ledger.Tx -> bool, q: Ledger.Tx -> bool)
    requires forall i :: 0 <= i < |txs| ==> p(txs[i]) == q(txs[i])
    ensures SumTx(txs, p) == SumTx(txs, q)
  {
    if txs != [] {
      var init := txs[..|txs| - 1];
      assert forall i :: 0 <= i < |init| ==> init[i] == txs[i];
      SumTxSame(init, p, q);
    }
  }

  lemma {:induction false} SelectedFrom(txs: map<nat, Ledger.Tx>, n: nat, user: nat, f: Filter)
    ensures forall t :: t in Query(txs, n, user, f) ==> t in txs.Values
  {
    if n > 0 { SelectedFrom(txs, n - 1, user, f); }
  }

  /** While every transaction refers to an account, they sum to the report's income less its expense. */
  lemma {:induction false} LastsAreNetIncome(db: Ledger.DB, user: nat, f: Filter, cut: int -> int,
                                             names: map<nat, string>, points: seq<BalancePoint>)
    requires LedgerIntegrity.Integrity(db) && names.Keys == db.accounts.Keys
    requires Balances(Items(Joined(Query(db.txs, db.nextTx, user, f), names), PeriodAccountType(cut)), names, points)
    ensures var txs := Query(db.txs, db.nextTx, user, f);
      Balance(Lasts(points)) == SumTx(txs, Income()).amount - SumTx(txs, Spending()).amount
  {
    var txs := Query(db.txs, db.nextTx, user, f);
    SelectedFrom(db.txs, db.nextTx, user, f);
    forall i | 0 <= i < |txs| ensures Ledger.IsKind(txs[i].kind) && txs[i].account in names {
      assert txs[i] in txs;
    }
    LastsAreJoined(txs, cut, names, points);
    SumTxSame(txs, Income(), JoinedOf(names, Income()));
    SumTxSame(txs, Spending(), JoinedOf(names, Spending()));
  }

  // ---- the report and the ledger ----

  function CreditTo(a: nat): Ledger.Tx -> bool { (x: Ledger.Tx) => x.account == a && x.kind != "expense" }

  function DebitTo(a: nat): Ledger.Tx -> bool { (x: Ledger.Tx) => x.account == a && x.kind == "expense" }

  /** What the selected transactions add to an account. */
  function NetTo(txs: seq<Ledger.Tx>, a: nat): int {
    if txs == [] then 0 else NetTo(txs[..|txs| - 1], a) + LedgerConservation.OnRow(txs[|txs| - 1], a)
  }

  lemma {:induction false} NetToSums(txs: seq<Ledger.Tx>, a: nat)
    ensures NetTo(txs, a) == SumTx(txs, CreditTo(a)).amount - SumTx(txs, DebitTo(a)).amount
  {
    if txs != [] {
      var last := txs[|txs| - 1];
      NetToSums(txs[..|txs| - 1], a);
      assert CreditTo(a)(last) <==> last.account == a && last.kind != "expense";
      assert DebitTo(a)(last) <==> last.account == a && last.kind == "expense";
    }
  }

  lemma {:induction false} NetToNext(txs: seq<Ledger.Tx>, t: Ledger.Tx, a: nat)
    ensures NetTo(txs + [t], a) == NetTo(txs, a) + LedgerConservation.OnRow(t, a)
  {
    assert (txs + [t])[..|txs|] == txs;
  }

  /** A report that leaves out nothing of an account adds up what the ledger holds on it. */
  lemma {:induction false} QueryMeetsLedger(txs: map<nat, Ledger.Tx>, n: nat, user: nat, f: Filter, a: nat)
    requires forall id :: id in txs && txs[id].account == a ==> InReport(txs[id], user, f)
    ensures NetTo(Query(txs, n, user, f), a) == LedgerConservation.Sum(txs, a, n)
  {
    if n > 0 {
      var before := Query(txs, n - 1, user, f);
      QueryMeetsLedger(txs, n - 1, user, f, a);
      if n - 1 in txs && InReport(txs[n - 1], user, f) {
        NetToNext(before, txs[n - 1], a);
        assert Query(txs, n, user, f) == before + [txs[n - 1]];
      } else {
        assert Query(txs, n, user, f) == before;
      }
    }
  }

  lemma {:induction false} JoinedKeepsAccount(txs: seq<Ledger.Tx>, names: map<nat, string>, a: nat)
    requires a in names
    ensures NetTo(Joined(txs, names), a) == NetTo(txs, a)
  {
    if txs != [] {
      var init, last := txs[..|txs| - 1], txs[|txs| - 1];
      JoinedKeepsAccount(init, names, a);
      if last.account in names {
        NetToNext(Joined(init, names), last, a);
      } else {
        assert Joined(txs, names) == Joined(init, names);
      }
    }
  }

  /** A point's account was found by the join. */
  lemma {:induction false} LastNamed(items: seq<Row>, names: map<nat, string>, points: seq<BalancePoint>,
                                     x: BalancePoint)
    requires Balances(items, names, points) && x in Lasts(points)
    ensures x.account in names
  {
    LastsFrom(points, x);
    var i :| 0 <= i < |points| && points[i] == x;
    assert PointRight(items, names, points[i]);
  }

  /** Then the account's last point is its stored balance less its drift. */
  lemma {:induction false} LastMeetsAccount(db: Ledger.DB, user: nat, f: Filter, cut: int -> int,
                                            names: map<nat, string>, points: seq<BalancePoint>, x: BalancePoint)
    requires x.account in db.accounts
    requires forall id :: id in db.txs && db.txs[id].account == x.account ==> InReport(db.txs[id], user, f)
    requires Balances(Items(Joined(Query(db.txs, db.nextTx, user, f), names), PeriodAccountType(cut)), names, points)
    requires x in Lasts(points)
    ensures x.balance == db.accounts[x.account].balance - LedgerConservation.Drift(db, x.account)
  {
    var txs, key := Query(db.txs, db.nextTx, user, f), PeriodAccountType(cut);
    var joined := Joined(txs, names);
    LastIsWhole(Items(joined, key), names, points, x);
    LastNamed(Items(joined, key), names, points, x);
    ItemsSum(joined, key, Credit(OfAccount(x.account)), CreditTo(x.account));
    ItemsSum(joined, key, Debit(OfAccount(x.account)), DebitTo(x.account));
    JoinedKeepsAccount(txs, names, x.account);
    QueryMeetsLedger(db.txs, db.nextTx, user, f, x.account);
    NetToSums(joined, x.account);
  }
}
