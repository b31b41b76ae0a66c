/** What the analytics routes report, told from the rows of the tables. */
module AnalyticsByRow {
  import opened Analytics
  import opened Sums
  import opened Wrappers

  // ---- Wallet by wallet -----------------------------------------------------------------------

  function Abs(x: int): int {
    if x < 0 then -x else x
  }

  /** What one more row adds to a flow. */
  predicate Adds(before: Flow, after: Flow, counted: bool, cents: int) {
    if counted then after == Flow(before.count + 1, before.totalCents + cents) else after == before
  }

  /** Every wallet of the table has its line, in order, and an empty table of transactions gives zeros. */
  lemma {:induction false} LinePerWallet(txs: seq<Tx>, wallets: seq<Wallet>)
    ensures |Breakdown(txs, wallets)| == |wallets|
    ensures forall i :: 0 <= i < |wallets| ==>
      Breakdown(txs, wallets)[i] == StatsOf(txs, wallets[i]) && Breakdown(txs, wallets)[i].walletId == wallets[i].walletId
    ensures forall w :: StatsOf([], w) == WalletStats(w.walletId, Flow(0, 0), Flow(0, 0), 0)
  {
    if wallets != [] { LinePerWallet(txs, wallets[..|wallets| - 1]); }
  }

  /**
   One more transaction counts, with its absolute amount, as received by the wallet it goes to and
   as sent by the wallet it comes from, if it is completed, and for no other wallet.
   */
  lemma OneMoreTransaction(txs: seq<Tx>, t: Tx, w: Wallet)
    ensures var before, after := StatsOf(txs, w), StatsOf(txs + [t], w);
      && Adds(before.inflow, after.inflow, t.status == "completed" && t.toWallet == Some(w.walletId), Abs(t.amount))
      && Adds(before.outflow, after.outflow, t.status == "completed" && t.fromWallet == Some(w.walletId), Abs(t.amount))
      && after.transactionCount == after.inflow.count + after.outflow.count
  {
    FlowOfMore(txs, t, Target, w.walletId);
    FlowOfMore(txs, t, Source, w.walletId);
  }

  lemma FlowOfMore(txs: seq<Tx>, t: Tx, end: Tx -> Option<string>, walletId: string)
    ensures Adds(FlowAt(txs, end, walletId), FlowAt(txs + [t], end, walletId),
                 t.status == "completed" && end(t) == Some(walletId), Abs(t.amount))
  {
    assert (txs + [t])[..|txs|] == txs;
    var completed := Select(txs, IsCompleted);
    assert (completed + [t])[..|completed|] == completed;
  }

  // ---- Orphans --------------------------------------------------------------------------------

  /** The places of the rows selected. */
  function Places(rows: seq<Tx>, p: Tx -> bool): set<nat> {
    set i | 0 <= i < |rows| && p(rows[i])
  }

  lemma PlacesStep(rows: seq<Tx>, p: Tx -> bool, n: nat)
    requires |rows| == n + 1
    ensures Places(rows, p) == Places(rows[..n], p) + (if p(rows[n]) then {n} else {}) && n !in Places(rows[..n], p)
  {
    assert forall i :: 0 <= i < n ==> rows[..n][i] == rows[i];
  }

  lemma {:induction false} SelectSize(rows: seq<Tx>, p: Tx -> bool)
    ensures |Select(rows, p)| == |Places(rows, p)|
  {
    if rows != [] {
      SelectSize(rows[..|rows| - 1], p);
      PlacesStep(rows, p, |rows| - 1);
    }
  }

  /** The rows that name a wallet the table does not have. */
  function Orphans(txs: seq<Tx>, wallets: seq<Wallet>, end: Tx -> Option<string>): set<nat> {
    set i | 0 <= i < |txs| && end(txs[i]).Some? && forall w :: w in wallets ==> end(txs[i]) != Some(w.walletId)
  }

  lemma OrphansAre(txs: seq<Tx>, wallets: seq<Wallet>, end: Tx -> Option<string>)
    ensures OrphanCount(txs, wallets, end) == |Orphans(txs, wallets, end)|
  {
    OrphanCountIs(txs, wallets, end);
    SelectSize(txs, Orphaned(end, IdSet(wallets)));
    forall k: Option<string> ensures k in IdSet(wallets) <==> exists w :: w in wallets && k == Some(w.walletId) {
      if k in IdSet(wallets) {
        var i :| 0 <= i < |wallets| && Ids(wallets)[i] == k;
        assert wallets[i] in wallets;
      }
      if w :| w in wallets && k == Some(w.walletId) {
        var i :| 0 <= i < |wallets| && wallets[i] == w;
        assert Ids(wallets)[i] == k;
      }
    }
    assert Orphans(txs, wallets, end) == Places(txs, Orphaned(end, IdSet(wallets)));
  }

  /** Both counts of the data-quality route. */
  lemma OrphanCounts(txs: seq<Tx>, wallets: seq<Wallet>)
    ensures var from := set i | 0 <= i < |txs| && txs[i].fromWallet.Some? &&
        forall w :: w in wallets ==> txs[i].fromWallet != Some(w.walletId);
      OrphanCount(txs, wallets, Source) == |from|
    ensures var to := set i | 0 <= i < |txs| && txs[i].toWallet.Some? &&
        forall w :: w in wallets ==> txs[i].toWallet != Some(w.walletId);
      OrphanCount(txs, wallets, Target) == |to|
  {
    OrphansAre(txs, wallets, Source);
    OrphansAre(txs, wallets, Target);
    assert Orphans(txs, wallets, Source) == set i | 0 <= i < |txs| && txs[i].fromWallet.Some? &&
      forall w :: w in wallets ==> txs[i].fromWallet != Some(w.walletId);
    assert Orphans(txs, wallets, Target) == set i | 0 <= i < |txs| && txs[i].toWallet.Some? &&
      forall w :: w in wallets ==> txs[i].toWallet != Some(w.walletId);
  }

  // ---- Groupings ------------------------------------------------------------------------------

  lemma SumOfMore(rows: seq<Tx>, t: Tx, f: Tx -> int)
    ensures Sum([], f) == 0 && Sum(rows + [t], f) == Sum(rows, f) + f(t)
  {
    assert (rows + [t])[..|rows|] == rows;
  }

  lemma {:induction false} SumWhereIs<K>(rows: seq<Tx>, key: Tx -> K, k: K, f: Tx -> int, g: Tx -> int)
    requires forall t :: g(t) == if key(t) == k then f(t) else 0
    ensures SumWhere(rows, key, k, f) == Sum(rows, g)
  {
    if rows != [] { SumWhereIs(rows[..|rows| - 1], key, k, f, g); }
  }

  /** The group of `mine`: its rows, their absolute amounts, and those of its credits and debits. */
  ghost predicate Tallies<K>(g: Group<K>, rows: seq<Tx>, mine: Tx -> bool) {
    && g.count == Sum(rows, (t: Tx) => if mine(t) then 1 else 0)
    && g.totalCents == Sum(rows, (t: Tx) => if mine(t) then Abs(t.amount) else 0)
    && g.creditsCents == Sum(rows, (t: Tx) => if mine(t) && t.amount > 0 then t.amount else 0)
    && g.debitsCents == Sum(rows, (t: Tx) => if mine(t) && t.amount < 0 then -t.amount else 0)
  }

  lemma GroupTallies<K(!new)>(groups: seq<Group<K>>, rows: seq<Tx>, key: Tx -> K, i: nat, mine: Tx -> bool)
    requires IsGroupBy(groups, rows, key) && i < |groups|
    requires forall t :: mine(t) <==> key(t) == groups[i].key
    ensures Tallies(groups[i], rows, mine)
  {
    var k := groups[i].key;
    SumWhereIs(rows, key, k, One, (t: Tx) => if mine(t) then 1 else 0);
    SumWhereIs(rows, key, k, AbsAmount, (t: Tx) => if mine(t) then Abs(t.amount) else 0);
    SumWhereIs(rows, key, k, Credit, (t: Tx) => if mine(t) && t.amount > 0 then t.amount else 0);
    SumWhereIs(rows, key, k, Debit, (t: Tx) => if mine(t) && t.amount < 0 then -t.amount else 0);
  }

  lemma CategoryGroup(groups: seq<Group<Option<string>>>, rows: seq<Tx>, i: nat)
    requires IsGroupBy(groups, rows, Category) && i < |groups|
    ensures Tallies(groups[i], rows, (t: Tx) => t.category == groups[i].key)
  {
    GroupTallies(groups, rows, Category, i, (t: Tx) => t.category == groups[i].key);
  }

  lemma MethodGroup(groups: seq<Group<Option<string>>>, rows: seq<Tx>, i: nat)
    requires IsGroupBy(groups, rows, PaymentMethod) && i < |groups|
    ensures Tallies(groups[i], rows, (t: Tx) => t.paymentMethod == groups[i].key)
  {
    GroupTallies(groups, rows, PaymentMethod, i, (t: Tx) => t.paymentMethod == groups[i].key);
  }

  /** The first seven characters of a time are these. */
  predicate InMonth(createdAt: Option<string>, month: Option<string>) {
    if createdAt.None? || month.None? then createdAt.None? && month.None?
    else if |createdAt.value| <= 7 then month == createdAt
    else |month.value| == 7 && month.value <= createdAt.value
  }

  lemma InMonthIs(t: Tx, month: Option<string>)
    ensures InMonth(t.createdAt, month) <==> Month(t) == month
  {
    if t.createdAt.Some? && month.Some? && |t.createdAt.value| > 7 {
      assert |month.value| == 7 && month.value <= t.createdAt.value <==> month.value == t.createdAt.value[..7];
    }
  }

  lemma MonthGroup(groups: seq<Group<Option<string>>>, rows: seq<Tx>, i: nat)
    requires IsGroupBy(groups, rows, Month) && i < |groups|
    ensures Tallies(groups[i], rows, (t: Tx) => InMonth(t.createdAt, groups[i].key))
  {
    forall t: Tx ensures InMonth(t.createdAt, groups[i].key) <==> Month(t) == groups[i].key {
      InMonthIs(t, groups[i].key);
    }
    GroupTallies(groups, rows, Month, i, (t: Tx) => InMonth(t.createdAt, groups[i].key));
  }
}
