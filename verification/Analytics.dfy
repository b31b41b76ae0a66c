/** The ledger analytics routes (server/routes/analytics.js): wallet flows, orphans, groupings. */
module Analytics {
  import opened Seqs
  import opened Sums
  import opened Wrappers

  datatype Wallet = Wallet(walletId: string, name: string)

  /** A row of the transactions table; amounts are cents. */
  datatype Tx = Tx(
    id: int, fromWallet: Option<string>, toWallet: Option<string>, amount: int,
    category: Option<string>, paymentMethod: Option<string>, createdAt: Option<string>, status: string)

  function Source(t: Tx): Option<string> { t.fromWallet }

  function Target(t: Tx): Option<string> { t.toWallet }

  function AbsAmount(t: Tx): int { if t.amount < 0 then -t.amount else t.amount }

  function One(t: Tx): int { 1 }

  predicate IsCompleted(t: Tx) { t.status == "completed" }

  // ---- Per-wallet flows ----------------------------------------------------------------

  datatype Flow = Flow(count: int, totalCents: int)

  /** COUNT and SUM(ABS(amount)) of the completed transactions with this wallet at one end. */
  function FlowAt(txs: seq<Tx>, end: Tx -> Option<string>, walletId: string): Flow {
    var completed := Select(txs, IsCompleted);
    Flow(SumWhere(completed, end, Some(walletId), One), SumWhere(completed, end, Some(walletId), AbsAmount))
  }

  datatype WalletStats = WalletStats(walletId: string, inflow: Flow, outflow: Flow, transactionCount: int)

  function StatsOf(txs: seq<Tx>, w: Wallet): WalletStats {
    var inflow, outflow := FlowAt(txs, Target, w.walletId), FlowAt(txs, Source, w.walletId);
    WalletStats(w.walletId, inflow, outflow, inflow.count + outflow.count)
  }

  function Breakdown(txs: seq<Tx>, wallets: seq<Wallet>): seq<WalletStats> {
    if wallets == [] then []
    else Breakdown(txs, wallets[..|wallets| - 1]) + [StatsOf(txs, wallets[|wallets| - 1])]
  }

  method WalletBreakdown(wallets: seq<Wallet>, txs: seq<Tx>) returns (walletStats: seq<WalletStats>)
    ensures walletStats == Breakdown(txs, wallets)
  {
    walletStats := [];
    for i := 0 to |wallets|
      invariant walletStats == Breakdown(txs, wallets[..i])
    {
      assert wallets[..i + 1][..i] == wallets[..i];
      var inflow := FlowAt(txs, Target, wallets[i].walletId);
      var outflow := FlowAt(txs, Source, wallets[i].walletId);
      walletStats := walletStats + [WalletStats(wallets[i].walletId, inflow, outflow, inflow.count + outflow.count)];
    }
    assert wallets[..|wallets|] == wallets;
  }

  function ReceivedCents(s: WalletStats): int { s.inflow.totalCents }

  function SentCents(s: WalletStats): int { s.outflow.totalCents }

  function InflowCount(s: WalletStats): int { s.inflow.count }

  function OutflowCount(s: WalletStats): int { s.outflow.count }

  /** Totals of one flow over all wallets. */
  function TotalFlow(txs: seq<Tx>, wallets: seq<Wallet>, end: Tx -> Option<string>): Flow {
    if wallets == [] then Flow(0, 0)
    else
      var before := TotalFlow(txs, wallets[..|wallets| - 1], end);
      var flow := FlowAt(txs, end, wallets[|wallets| - 1].walletId);
      Flow(before.count + flow.count, before.totalCents + flow.totalCents)
  }

  lemma {:induction false} BreakdownTotals(txs: seq<Tx>, wallets: seq<Wallet>)
    ensures var stats := Breakdown(txs, wallets);
      && TotalFlow(txs, wallets, Target) == Flow(Sum(stats, InflowCount), Sum(stats, ReceivedCents))
      && TotalFlow(txs, wallets, Source) == Flow(Sum(stats, OutflowCount), Sum(stats, SentCents))
  {
    if wallets != [] {
      var before := Breakdown(txs, wallets[..|wallets| - 1]);
      BreakdownTotals(txs, wallets[..|wallets| - 1]);
      assert Breakdown(txs, wallets)[..|before|] == before;
    }
  }

  function Ids(wallets: seq<Wallet>): (ids: seq<Option<string>>)
    ensures |ids| == |wallets| && forall i :: 0 <= i < |wallets| ==> ids[i] == Some(wallets[i].walletId)
  {
    seq(|wallets|, i requires 0 <= i < |wallets| => Some(wallets[i].walletId))
  }

  function IdSet(wallets: seq<Wallet>): set<Option<string>> {
    Elements(Ids(wallets))
  }

  lemma {:induction false} TotalFlowIsGroups(txs: seq<Tx>, wallets: seq<Wallet>, end: Tx -> Option<string>)
    ensures var completed := Select(txs, IsCompleted);
      TotalFlow(txs, wallets, end) == Flow(SumGroups(Ids(wallets), completed, end, One),
                                           SumGroups(Ids(wallets), completed, end, AbsAmount))
  {
    if wallets != [] {
      TotalFlowIsGroups(txs, wallets[..|wallets| - 1], end);
      assert Ids(wallets)[..|wallets| - 1] == Ids(wallets[..|wallets| - 1]);
    }
  }

  /** Present at one end and absent at the other. */
  function OneEnded(has: Tx -> Option<string>, lacks: Tx -> Option<string>): Tx -> bool {
    (t: Tx) => has(t).Some? && lacks(t).None?
  }

  /** A wallet is named that is not in the table. */
  function Orphaned(end: Tx -> Option<string>, ids: set<Option<string>>): Tx -> bool {
    (t: Tx) => end(t).Some? && end(t) !in ids
  }

  /** Row by row: known targets minus known sources are the one-ended rows, less the orphaned ones. */
  lemma {:induction false} FlowIdentity(rows: seq<Tx>, ids: set<Option<string>>, f: Tx -> int)
    requires forall k :: k in ids ==> k.Some?
    ensures
      SumIn(rows, ids, Target, f) - SumIn(rows, ids, Source, f) ==
      SumIf(rows, OneEnded(Target, Source), f) - SumIf(rows, OneEnded(Source, Target), f)
      - SumIf(rows, Orphaned(Target, ids), f) + SumIf(rows, Orphaned(Source, ids), f)
  {
    if rows != [] {
      FlowIdentity(rows[..|rows| - 1], ids, f);
      var t := rows[|rows| - 1];
      assert Target(t) in ids ==> Target(t).Some?;
      assert Source(t) in ids ==> Source(t).Some?;
    }
  }

  lemma TotalKnown(txs: seq<Tx>, wallets: seq<Wallet>, end: Tx -> Option<string>)
    requires Distinct(Ids(wallets))
    ensures var completed := Select(txs, IsCompleted);
      TotalFlow(txs, wallets, end) == Flow(SumIn(completed, IdSet(wallets), end, One),
                                           SumIn(completed, IdSet(wallets), end, AbsAmount))
  {
    var completed := Select(txs, IsCompleted);
    TotalFlowIsGroups(txs, wallets, end);
    Exchange(Ids(wallets), completed, end, One);
    Exchange(Ids(wallets), completed, end, AbsAmount);
    ListedOnce(Ids(wallets), completed, end, One);
    ListedOnce(Ids(wallets), completed, end, AbsAmount);
  }

  /**
   Over wallets with distinct ids, what all of them received minus what all of them sent is
   what came from nowhere minus what went nowhere, corrected by the orphaned ends; in cents
   and in numbers of transactions.
   */
  lemma ReceivedMinusSent(txs: seq<Tx>, wallets: seq<Wallet>)
    requires Distinct(Ids(wallets))
    ensures var completed, ids, stats := Select(txs, IsCompleted), IdSet(wallets), Breakdown(txs, wallets);
      && Sum(stats, ReceivedCents) - Sum(stats, SentCents) ==
           SumIf(completed, OneEnded(Target, Source), AbsAmount) - SumIf(completed, OneEnded(Source, Target), AbsAmount)
           - SumIf(completed, Orphaned(Target, ids), AbsAmount) + SumIf(completed, Orphaned(Source, ids), AbsAmount)
      && Sum(stats, InflowCount) - Sum(stats, OutflowCount) ==
           SumIf(completed, OneEnded(Target, Source), One) - SumIf(completed, OneEnded(Source, Target), One)
           - SumIf(completed, Orphaned(Target, ids), One) + SumIf(completed, Orphaned(Source, ids), One)
  {
    BreakdownTotals(txs, wallets);
    TotalKnown(txs, wallets, Target);
    TotalKnown(txs, wallets, Source);
    FlowIdentity(Select(txs, IsCompleted), IdSet(wallets), AbsAmount);
    FlowIdentity(Select(txs, IsCompleted), IdSet(wallets), One);
  }

  // ---- Orphans ---------------------------------------------------------------------------

  /** LEFT JOIN on the wallet id: a row per match, or one row without a wallet. */
  function LeftJoin(txs: seq<Tx>, wallets: seq<Wallet>, end: Tx -> Option<string>): seq<(Tx, Option<Wallet>)> {
    if txs == [] then []
    else
      var t := txs[|txs| - 1];
      LeftJoin(txs[..|txs| - 1], wallets, end) + Joined(t, Select(wallets, (w: Wallet) => end(t) == Some(w.walletId)))
  }

  function Joined(t: Tx, matches: seq<Wallet>): seq<(Tx, Option<Wallet>)> {
    if matches == [] then [(t, None)] else Pairs(t, matches)
  }

  function Pairs(t: Tx, matches: seq<Wallet>): (pairs: seq<(Tx, Option<Wallet>)>)
    ensures forall p :: p in pairs ==> p.1.Some?
  {
    seq(|matches|, i requires 0 <= i < |matches| => (t, Some(matches[i])))
  }

  function UnmatchedRow(end: Tx -> Option<string>): ((Tx, Option<Wallet>)) -> bool {
    (row: (Tx, Option<Wallet>)) => end(row.0).Some? && row.1.None?
  }

  function OrphanCount(txs: seq<Tx>, wallets: seq<Wallet>, end: Tx -> Option<string>): nat {
    |Select(LeftJoin(txs, wallets, end), UnmatchedRow(end))|
  }

  lemma {:induction false} SelectConcat<T(!new)>(a: seq<T>, b: seq<T>, p: T -> bool)
    ensures Select(a + b, p) == Select(a, p) + Select(b, p)
  {
    if b == [] {
      assert a + b == a;
    } else {
      SelectConcat(a, b[..|b| - 1], p);
      assert (a + b)[..|a + b| - 1] == a + b[..|b| - 1];
    }
  }

  lemma SelectNone<T(!new)>(rows: seq<T>, p: T -> bool)
    requires forall r :: r in rows ==> !p(r)
    ensures Select(rows, p) == []
  {
    if Select(rows, p) != [] { assert Select(rows, p)[0] in Select(rows, p); }
  }

  lemma JoinedOrphans(t: Tx, wallets: seq<Wallet>, end: Tx -> Option<string>)
    ensures var matches := Select(wallets, (w: Wallet) => end(t) == Some(w.walletId));
      Select(Joined(t, matches), UnmatchedRow(end)) ==
        if Orphaned(end, IdSet(wallets))(t) then [(t, None)] else []
  {
    var matches := Select(wallets, (w: Wallet) => end(t) == Some(w.walletId));
    if matches == [] {
      forall w | w in wallets ensures end(t) != Some(w.walletId) {}
      forall k | k in Ids(wallets) ensures k != end(t) {
        var i :| 0 <= i < |wallets| && Ids(wallets)[i] == k;
        assert wallets[i] in wallets;
      }
      var lone: seq<(Tx, Option<Wallet>)> := [(t, None)];
      assert lone[..0] == [];
    } else {
      assert matches[0] in matches;
      var i :| 0 <= i < |wallets| && wallets[i] == matches[0];
      assert Ids(wallets)[i] == end(t);
      SelectNone(Pairs(t, matches), UnmatchedRow(end));
    }
  }

  /** The join counts every transaction whose wallet is missing once, whatever the wallet table repeats. */
  lemma {:induction false} OrphanCountIs(txs: seq<Tx>, wallets: seq<Wallet>, end: Tx -> Option<string>)
    ensures OrphanCount(txs, wallets, end) == |Select(txs, Orphaned(end, IdSet(wallets)))|
  {
    if txs != [] {
      var init, t := txs[..|txs| - 1], txs[|txs| - 1];
      OrphanCountIs(init, wallets, end);
      JoinedOrphans(t, wallets, end);
      SelectConcat(LeftJoin(init, wallets, end),
                   Joined(t, Select(wallets, (w: Wallet) => end(t) == Some(w.walletId))), UnmatchedRow(end));
    }
  }

  lemma NoOrphans(txs: seq<Tx>, wallets: seq<Wallet>, end: Tx -> Option<string>, f: Tx -> int)
    requires OrphanCount(txs, wallets, end) == 0
    ensures SumIf(Select(txs, IsCompleted), Orphaned(end, IdSet(wallets)), f) == 0
  {
    var p := Orphaned(end, IdSet(wallets));
    OrphanCountIs(txs, wallets, end);
    assert Select(txs, p) == [];
    forall t | t in Select(txs, IsCompleted) ensures !p(t) {
      assert p(t) ==> t in Select(txs, p);
    }
    SumIfNone(Select(txs, IsCompleted), p, f);
  }

  /**
   When the data-quality route reports no orphans, received minus sent is exactly the amounts
   with only a target minus those with only a source, and the totals agree once every
   completed transaction has both ends.
   */
  lemma FlowsReconcile(txs: seq<Tx>, wallets: seq<Wallet>)
    requires Distinct(Ids(wallets))
    requires OrphanCount(txs, wallets, Source) == 0 && OrphanCount(txs, wallets, Target) == 0
    ensures var completed, stats := Select(txs, IsCompleted), Breakdown(txs, wallets);
      var received, sent := Sum(stats, ReceivedCents), Sum(stats, SentCents);
      && received - sent ==
           SumIf(completed, OneEnded(Target, Source), AbsAmount) - SumIf(completed, OneEnded(Source, Target), AbsAmount)
      && (AllBothEnded(completed) ==> received == sent)
  {
    var completed := Select(txs, IsCompleted);
    ReceivedMinusSent(txs, wallets);
    NoOrphans(txs, wallets, Source, AbsAmount);
    NoOrphans(txs, wallets, Target, AbsAmount);
    if AllBothEnded(completed) { NoneOneEnded(completed); }
  }

  function TransactionCount(s: WalletStats): int { s.transactionCount }

  lemma {:induction false} CountsAdd(txs: seq<Tx>, wallets: seq<Wallet>)
    ensures var stats := Breakdown(txs, wallets);
      Sum(stats, TransactionCount) == Sum(stats, InflowCount) + Sum(stats, OutflowCount)
  {
    if wallets != [] {
      var before := Breakdown(txs, wallets[..|wallets| - 1]);
      CountsAdd(txs, wallets[..|wallets| - 1]);
      assert Breakdown(txs, wallets)[..|before|] == before;
    }
  }

  lemma KnownEnds(txs: seq<Tx>, wallets: seq<Wallet>, end: Tx -> Option<string>)
    requires Distinct(Ids(wallets)) && OrphanCount(txs, wallets, end) == 0
    requires forall t :: t in Select(txs, IsCompleted) ==> end(t).Some?
    ensures TotalFlow(txs, wallets, end).count == |Select(txs, IsCompleted)|
  {
    var p := Orphaned(end, IdSet(wallets));
    TotalKnown(txs, wallets, end);
    OrphanCountIs(txs, wallets, end);
    assert Select(txs, p) == [];
    forall t | t in Select(txs, IsCompleted) ensures end(t) in IdSet(wallets) {
      assert p(t) ==> t in Select(txs, p);
    }
    SumInAll(Select(txs, IsCompleted), IdSet(wallets), end, One);
    SumOnes(Select(txs, IsCompleted));
  }

  /** Without orphans and with both ends present, the transaction counts of the wallets count every transaction twice. */
  lemma CountsTwice(txs: seq<Tx>, wallets: seq<Wallet>)
    requires Distinct(Ids(wallets))
    requires OrphanCount(txs, wallets, Source) == 0 && OrphanCount(txs, wallets, Target) == 0
    requires AllBothEnded(Select(txs, IsCompleted))
    ensures Sum(Breakdown(txs, wallets), TransactionCount) == 2 * |Select(txs, IsCompleted)|
  {
    CountsAdd(txs, wallets);
    BreakdownTotals(txs, wallets);
    KnownEnds(txs, wallets, Source);
    KnownEnds(txs, wallets, Target);
  }

  predicate AllBothEnded(rows: seq<Tx>) {
    forall t :: t in rows ==> t.fromWallet.Some? && t.toWallet.Some?
  }

  lemma NoneOneEnded(rows: seq<Tx>)
    requires AllBothEnded(rows)
    ensures SumIf(rows, OneEnded(Target, Source), AbsAmount) == 0 == SumIf(rows, OneEnded(Source, Target), AbsAmount)
  {
    SumIfNone(rows, OneEnded(Target, Source), AbsAmount);
    SumIfNone(rows, OneEnded(Source, Target), AbsAmount);
  }

  // ---- Groupings ---------------------------------------------------------------------------

  /** One row of a GROUP BY result. */
  datatype Group<K> = Group(key: K, count: int, totalCents: int, creditsCents: int, debitsCents: int)

  function Credit(t: Tx): int { if t.amount >= 0 then t.amount else 0 }

  function Debit(t: Tx): int { if t.amount < 0 then -t.amount else 0 }

  function Signed(t: Tx): int { t.amount }

  function Category(t: Tx): Option<string> { t.category }

  function PaymentMethod(t: Tx): Option<string> { t.paymentMethod }

  /** SUBSTR(created_at, 1, n). */
  function Prefix(s: string, n: nat): string {
    if |s| <= n then s else s[..n]
  }

  function Month(t: Tx): Option<string> {
    if t.createdAt.None? then None else Some(Prefix(t.createdAt.value, 7))
  }

  function KeysOf<K>(groups: seq<Group<K>>): (keys: seq<K>)
    ensures |keys| == |groups| && forall i :: 0 <= i < |groups| ==> keys[i] == groups[i].key
  {
    seq(|groups|, i requires 0 <= i < |groups| => groups[i].key)
  }

  /** What SQL promises of GROUP BY key: one group per value, NULL included, in any order. */
  ghost predicate IsGroupBy<K(!new)>(groups: seq<Group<K>>, rows: seq<Tx>, key: Tx -> K) {
    && Distinct(KeysOf(groups))
    && (forall k :: k in KeysOf(groups) <==> exists r :: r in rows && key(r) == k)
    && (forall i :: 0 <= i < |groups| ==>
          groups[i] == Group(groups[i].key,
                             SumWhere(rows, key, groups[i].key, One), SumWhere(rows, key, groups[i].key, AbsAmount),
                             SumWhere(rows, key, groups[i].key, Credit), SumWhere(rows, key, groups[i].key, Debit)))
  }

  function CountOf<K>(g: Group<K>): int { g.count }

  function TotalOf<K>(g: Group<K>): int { g.totalCents }

  function NetOf<K>(g: Group<K>): int { g.creditsCents - g.debitsCents }

  lemma {:induction false} GroupColumn<K>(groups: seq<Group<K>>, rows: seq<Tx>, key: Tx -> K,
                                          column: Group<K> -> int, f: Tx -> int)
    requires forall i :: 0 <= i < |groups| ==> column(groups[i]) == SumWhere(rows, key, groups[i].key, f)
    ensures Sum(groups, column) == SumGroups(KeysOf(groups), rows, key, f)
  {
    if groups != [] {
      var init := groups[..|groups| - 1];
      GroupColumn(init, rows, key, column, f);
      assert KeysOf(groups)[..|groups| - 1] == KeysOf(init);
    }
  }

  lemma {:induction false} SumWhereNet<K>(rows: seq<Tx>, key: Tx -> K, k: K)
    ensures SumWhere(rows, key, k, Signed) == SumWhere(rows, key, k, Credit) - SumWhere(rows, key, k, Debit)
  {
    if rows != [] { SumWhereNet(rows[..|rows| - 1], key, k); }
  }

  lemma {:induction false} SumOnes(rows: seq<Tx>)
    ensures Sum(rows, One) == |rows|
  {
    if rows != [] { SumOnes(rows[..|rows| - 1]); }
  }

  /** A grouping partitions its rows: counts, absolute amounts and nets add up to those of the list. */
  lemma GroupingPartitions<K(!new)>(groups: seq<Group<K>>, rows: seq<Tx>, key: Tx -> K)
    requires IsGroupBy(groups, rows, key)
    ensures Sum(groups, CountOf) == |rows|
    ensures Sum(groups, TotalOf) == Sum(rows, AbsAmount)
    ensures Sum(groups, NetOf) == Sum(rows, Signed)
  {
    forall r | r in rows ensures key(r) in KeysOf(groups) {}
    forall i | 0 <= i < |groups| ensures NetOf(groups[i]) == SumWhere(rows, key, groups[i].key, Signed) {
      SumWhereNet(rows, key, groups[i].key);
    }
    GroupColumn(groups, rows, key, CountOf, One);
    GroupColumn(groups, rows, key, TotalOf, AbsAmount);
    GroupColumn(groups, rows, key, NetOf, Signed);
    PartitionSum(KeysOf(groups), rows, key, One);
    PartitionSum(KeysOf(groups), rows, key, AbsAmount);
    PartitionSum(KeysOf(groups), rows, key, Signed);
    SumOnes(rows);
  }

  /** The three groupings of one filtered list agree with its count and with each other. */
  lemma GroupingsAgree(rows: seq<Tx>, byCategory: seq<Group<Option<string>>>,
                       byMethod: seq<Group<Option<string>>>, byMonth: seq<Group<Option<string>>>)
    requires IsGroupBy(byCategory, rows, Category) && IsGroupBy(byMethod, rows, PaymentMethod)
    requires IsGroupBy(byMonth, rows, Month)
    ensures Sum(byCategory, CountOf) == Sum(byMethod, CountOf) == Sum(byMonth, CountOf) == |rows|
    ensures Sum(byCategory, TotalOf) == Sum(byMethod, TotalOf)
    ensures Sum(byMonth, NetOf) == Sum(rows, Signed)
  {
    GroupingPartitions(byCategory, rows, Category);
    GroupingPartitions(byMethod, rows, PaymentMethod);
    GroupingPartitions(byMonth, rows, Month);
  }
}
