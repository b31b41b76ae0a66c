/**
 The wallet postings of an ACH disbursement (server/routes/ach.js): the trust's wallet is debited,
 the beneficiary's credited, and each leg leaves a row with the balance before and after.
 */
module Disbursement {
  import opened Sums
  import opened Wrappers

  const TRUST_ROLE := "trust_entity"

  /** Both INSERT statements name seven placeholders and are run with eight values. */
  const PLACEHOLDERS := 7
  const BOUND_VALUES := 8

  datatype Wallet = Wallet(id: int, role: string, fiatBalance: int)

  datatype Kind = TransferOut | TransferIn

  datatype Row = Row(walletId: int, kind: Kind, amount: int, balanceBefore: int, balanceAfter: int, counterparty: int)

  datatype Ledger = Ledger(wallets: seq<Wallet>, rows: seq<Row>)

  /** A disbursement of `cents` to a wallet, and whether the driver takes each leg's INSERT or throws. */
  datatype Posting = Posting(walletId: int, cents: nat, debitLogged: bool, creditLogged: bool)

  function Balance(w: Wallet): int { w.fiatBalance }

  /** The first wallet with the trust's role. */
  function FindTrust(wallets: seq<Wallet>): Option<Wallet> {
    if wallets == [] then None
    else
      var earlier, last := FindTrust(wallets[..|wallets| - 1]), wallets[|wallets| - 1];
      if earlier.None? && last.role == TRUST_ROLE then Some(last) else earlier
  }

  function Find(wallets: seq<Wallet>, id: int): Option<Wallet> {
    if wallets == [] then None
    else if wallets[|wallets| - 1].id == id then Some(wallets[|wallets| - 1])
    else Find(wallets[..|wallets| - 1], id)
  }

  /** UPDATE wallets SET fiat_balance WHERE id. */
  function SetBalance(wallets: seq<Wallet>, id: int, balance: int): seq<Wallet> {
    if wallets == [] then []
    else
      var last := wallets[|wallets| - 1];
      SetBalance(wallets[..|wallets| - 1], id, balance) + [if last.id == id then last.(fiatBalance := balance) else last]
  }

  function Debit(l: Ledger, p: Posting, trust: Wallet): Ledger {
    var after := trust.fiatBalance - p.cents;
    var row := Row(trust.id, TransferOut, p.cents, trust.fiatBalance, after, p.walletId);
    Ledger(SetBalance(l.wallets, trust.id, after), l.rows + if p.debitLogged then [row] else [])
  }

  function Credit(l: Ledger, p: Posting, trustId: int): Ledger {
    match Find(l.wallets, p.walletId)
    case None => l
    case Some(ben) =>
      var after := ben.fiatBalance + p.cents;
      var row := Row(p.walletId, TransferIn, p.cents, ben.fiatBalance, after, trustId);
      Ledger(SetBalance(l.wallets, p.walletId, after), l.rows + if p.creditLogged then [row] else [])
  }

  /** One disbursement; an exception after an UPDATE is swallowed and nothing is rolled back. */
  function Post(l: Ledger, p: Posting): Ledger {
    match FindTrust(l.wallets)
    case None => l
    case Some(trust) =>
      var debited := Debit(l, p, trust);
      if !p.debitLogged then debited else Credit(debited, p, trust.id)
  }

  function PostAll(l: Ledger, postings: seq<Posting>): Ledger {
    if postings == [] then l
    else Post(PostAll(l, postings[..|postings| - 1]), postings[|postings| - 1])
  }

  class Database {
    var wallets: seq<Wallet>
    var transactions: seq<Row>

    function State(): Ledger
      reads this
    {
      Ledger(wallets, transactions)
    }

    method InsertRow(row: Row, accepted: bool) returns (thrown: bool)
      modifies this`transactions
      ensures thrown == !accepted
      ensures transactions == old(transactions) + if accepted then [row] else []
    {
      thrown := !accepted;
      if accepted { transactions := transactions + [row]; }
    }

    /** The database part of the handler, up to the catch that only warns. */
    method Disburse(p: Posting)
      modifies this
      ensures State() == Post(old(State()), p)
    {
      var trustWallet := FindTrust(wallets);
      if trustWallet.None? { return; }
      var trust := trustWallet.value;
      var balanceAfter := trust.fiatBalance - p.cents;
      wallets := SetBalance(wallets, trust.id, balanceAfter);
      var thrown := InsertRow(Row(trust.id, TransferOut, p.cents, trust.fiatBalance, balanceAfter, p.walletId), p.debitLogged);
      if thrown { return; }
      var benWallet := Find(wallets, p.walletId);
      if benWallet.Some? {
        var benBefore := benWallet.value.fiatBalance;
        var benAfter := benBefore + p.cents;
        wallets := SetBalance(wallets, p.walletId, benAfter);
        thrown := InsertRow(Row(p.walletId, TransferIn, p.cents, benBefore, benAfter, trust.id), p.creditLogged);
      }
    }
  }

  // ---- The wallets table --------------------------------------------------------------------

  predicate UniqueIds(wallets: seq<Wallet>) {
    forall i, j :: 0 <= i < j < |wallets| ==> wallets[i].id != wallets[j].id
  }

  function Total(wallets: seq<Wallet>): int { Sum(wallets, Balance) }

  lemma {:induction false} SetKeepsIds(wallets: seq<Wallet>, id: int, balance: int)
    ensures var w' := SetBalance(wallets, id, balance);
      |w'| == |wallets| && forall i :: 0 <= i < |w'| ==> w'[i].id == wallets[i].id && w'[i].role == wallets[i].role
  {
    if wallets != [] { SetKeepsIds(wallets[..|wallets| - 1], id, balance); }
  }

  lemma {:induction false} SetFinds(wallets: seq<Wallet>, id: int, balance: int, k: int)
    ensures Find(SetBalance(wallets, id, balance), k) ==
      match Find(wallets, k) case None => None case Some(w) => Some(if k == id then w.(fiatBalance := balance) else w)
  {
    if wallets != [] {
      SetFinds(wallets[..|wallets| - 1], id, balance, k);
      assert SetBalance(wallets, id, balance)[..|wallets| - 1] == SetBalance(wallets[..|wallets| - 1], id, balance) by {
        SetKeepsIds(wallets[..|wallets| - 1], id, balance);
      }
      SetKeepsIds(wallets, id, balance);
    }
  }

  lemma {:induction false} SetKeepsTrust(wallets: seq<Wallet>, id: int, balance: int)
    ensures FindTrust(SetBalance(wallets, id, balance)).Some? == FindTrust(wallets).Some?
    ensures FindTrust(wallets).Some? ==>
      FindTrust(SetBalance(wallets, id, balance)).value.id == FindTrust(wallets).value.id
  {
    if wallets != [] {
      SetKeepsTrust(wallets[..|wallets| - 1], id, balance);
      assert SetBalance(wallets, id, balance)[..|wallets| - 1] == SetBalance(wallets[..|wallets| - 1], id, balance) by {
        SetKeepsIds(wallets[..|wallets| - 1], id, balance);
      }
      SetKeepsIds(wallets, id, balance);
    }
  }

  lemma {:induction false} FindIsMember(wallets: seq<Wallet>, id: int)
    ensures match Find(wallets, id)
      case None => forall w :: w in wallets ==> w.id != id
      case Some(w) => w in wallets && w.id == id
  {
    if wallets != [] {
      FindIsMember(wallets[..|wallets| - 1], id);
      assert wallets == wallets[..|wallets| - 1] + [wallets[|wallets| - 1]];
    }
  }

  lemma {:induction false} SetTotal(wallets: seq<Wallet>, id: int, balance: int)
    requires UniqueIds(wallets)
    ensures Total(SetBalance(wallets, id, balance)) == Total(wallets) +
      match Find(wallets, id) case None => 0 case Some(w) => balance - w.fiatBalance
  {
    if wallets != [] {
      var init, last := wallets[..|wallets| - 1], wallets[|wallets| - 1];
      SetTotal(init, id, balance);
      SetKeepsIds(init, id, balance);
      assert SetBalance(wallets, id, balance)[..|init|] == SetBalance(init, id, balance);
      FindIsMember(init, id);
    }
  }

  lemma {:induction false} TrustIsFound(wallets: seq<Wallet>)
    requires UniqueIds(wallets) && FindTrust(wallets).Some?
    ensures FindTrust(wallets).value in wallets
    ensures Find(wallets, FindTrust(wallets).value.id) == FindTrust(wallets)
  {
    var init, last := wallets[..|wallets| - 1], wallets[|wallets| - 1];
    assert wallets == init + [last];
    if FindTrust(init).Some? {
      TrustIsFound(init);
    }
  }

  // ---- Conservation ----------------------------------------------------------------------

  /** The posting puts money into the beneficiary's wallet. */
  predicate Arrives(wallets: seq<Wallet>, p: Posting) {
    FindTrust(wallets).Some? && p.debitLogged && Find(wallets, p.walletId).Some?
  }

  /** The same wallets, whatever their balances. */
  ghost predicate SameWallets(a: seq<Wallet>, b: seq<Wallet>) {
    && |a| == |b| && (forall i :: 0 <= i < |a| ==> a[i].id == b[i].id)
    && (FindTrust(a).Some? <==> FindTrust(b).Some?)
    && (FindTrust(a).Some? ==> FindTrust(a).value.id == FindTrust(b).value.id)
    && (forall k :: Find(a, k).Some? <==> Find(b, k).Some?)
  }

  lemma SetKeepsWallets(wallets: seq<Wallet>, id: int, balance: int)
    ensures SameWallets(wallets, SetBalance(wallets, id, balance))
  {
    SetKeepsIds(wallets, id, balance);
    SetKeepsTrust(wallets, id, balance);
    forall k ensures Find(wallets, k).Some? <==> Find(SetBalance(wallets, id, balance), k).Some? {
      SetFinds(wallets, id, balance, k);
    }
  }

  lemma CreditKeepsWallets(l: Ledger, p: Posting, trustId: int)
    ensures SameWallets(l.wallets, Credit(l, p, trustId).wallets)
  {
    if Find(l.wallets, p.walletId).Some? {
      SetKeepsWallets(l.wallets, p.walletId, Find(l.wallets, p.walletId).value.fiatBalance + p.cents);
    }
  }

  lemma PostKeepsWallets(l: Ledger, p: Posting)
    ensures SameWallets(l.wallets, Post(l, p).wallets)
  {
    if FindTrust(l.wallets).Some? {
      var trust := FindTrust(l.wallets).value;
      SetKeepsWallets(l.wallets, trust.id, trust.fiatBalance - p.cents);
      CreditKeepsWallets(Debit(l, p, trust), p, trust.id);
    }
  }

  lemma CreditMoves(l: Ledger, p: Posting, trustId: int, k: int)
    requires Find(l.wallets, k).Some?
    ensures Find(Credit(l, p, trustId).wallets, k).Some?
    ensures Find(Credit(l, p, trustId).wallets, k).value.fiatBalance ==
      Find(l.wallets, k).value.fiatBalance + if k == p.walletId then p.cents else 0
  {
    if Find(l.wallets, p.walletId).Some? {
      SetFinds(l.wallets, p.walletId, Find(l.wallets, p.walletId).value.fiatBalance + p.cents, k);
    }
  }

  /** What one posting does to every balance, also when the beneficiary is the trust itself. */
  lemma PostMoves(l: Ledger, p: Posting, k: int)
    requires UniqueIds(l.wallets) && Find(l.wallets, k).Some?
    ensures Find(Post(l, p).wallets, k).Some?
    ensures Find(Post(l, p).wallets, k).value.fiatBalance == Find(l.wallets, k).value.fiatBalance
      - (if FindTrust(l.wallets).Some? && k == FindTrust(l.wallets).value.id then p.cents else 0)
      + (if Arrives(l.wallets, p) && k == p.walletId then p.cents else 0)
  {
    if FindTrust(l.wallets).Some? {
      TrustIsFound(l.wallets);
      var trust := FindTrust(l.wallets).value;
      SetFinds(l.wallets, trust.id, trust.fiatBalance - p.cents, k);
      if p.debitLogged { CreditMoves(Debit(l, p, trust), p, trust.id, k); }
    }
  }

  // ---- One posting, wallet by wallet and row by row -----------------------------------------

  /** The i-th wallet is the first whose role is the trust's. */
  predicate IsTrustWallet(wallets: seq<Wallet>, i: nat) {
    && i < |wallets| && wallets[i].role == "trust_entity"
    && forall j :: 0 <= j < i ==> wallets[j].role != "trust_entity"
  }

  lemma {:induction false} FindTrustIs(wallets: seq<Wallet>, i: nat)
    requires IsTrustWallet(wallets, i)
    ensures FindTrust(wallets) == Some(wallets[i])
  {
    var init := wallets[..|wallets| - 1];
    if i < |init| { FindTrustIs(init, i); } else { NoTrustFound(init); }
  }

  lemma {:induction false} NoTrustFound(wallets: seq<Wallet>)
    requires forall j :: 0 <= j < |wallets| ==> wallets[j].role != "trust_entity"
    ensures FindTrust(wallets) == None
  {
    if wallets != [] { NoTrustFound(wallets[..|wallets| - 1]); }
  }

  lemma {:induction false} FindIs(wallets: seq<Wallet>, k: nat)
    requires UniqueIds(wallets) && k < |wallets|
    ensures Find(wallets, wallets[k].id) == Some(wallets[k])
  {
    if k < |wallets| - 1 { FindIs(wallets[..|wallets| - 1], k); }
  }

  lemma {:induction false} SetAt(wallets: seq<Wallet>, id: int, balance: int)
    ensures var w' := SetBalance(wallets, id, balance);
      && |w'| == |wallets|
      && forall k :: 0 <= k < |w'| ==>
           w'[k] == if wallets[k].id == id then wallets[k].(fiatBalance := balance) else wallets[k]
  {
    if wallets != [] { SetAt(wallets[..|wallets| - 1], id, balance); }
  }

  lemma DebitAt(l: Ledger, p: Posting, i: nat)
    requires UniqueIds(l.wallets) && i < |l.wallets|
    ensures var w' := Debit(l, p, l.wallets[i]).wallets;
      && UniqueIds(w') && |w'| == |l.wallets|
      && forall k :: 0 <= k < |w'| ==>
           w'[k] == l.wallets[k].(fiatBalance := l.wallets[k].fiatBalance - if k == i then p.cents else 0)
  {
    SetAt(l.wallets, l.wallets[i].id, l.wallets[i].fiatBalance - p.cents);
    assert forall k :: 0 <= k < |l.wallets| && k != i ==> l.wallets[k].id != l.wallets[i].id;
  }

  lemma CreditAt(l: Ledger, p: Posting, trustId: int, j: nat)
    requires UniqueIds(l.wallets) && j < |l.wallets| && l.wallets[j].id == p.walletId
    ensures var l', before := Credit(l, p, trustId), l.wallets[j].fiatBalance;
      && |l'.wallets| == |l.wallets|
      && (forall k :: 0 <= k < |l'.wallets| ==>
            l'.wallets[k] == l.wallets[k].(fiatBalance := l.wallets[k].fiatBalance + if k == j then p.cents else 0))
      && l'.rows == l.rows +
           if p.creditLogged then [Row(p.walletId, TransferIn, p.cents, before, before + p.cents, trustId)] else []
  {
    FindIs(l.wallets, j);
    SetAt(l.wallets, p.walletId, l.wallets[j].fiatBalance + p.cents);
    assert forall k :: 0 <= k < |l.wallets| && k != j ==> l.wallets[k].id != l.wallets[j].id;
  }

  /** The debit comes off the first wallet with the trust's role, and what is logged says so. */
  lemma TrustIsDebited(l: Ledger, p: Posting, i: nat)
    requires UniqueIds(l.wallets) && IsTrustWallet(l.wallets, i)
    requires !p.debitLogged || forall w :: w in l.wallets ==> w.id != p.walletId
    ensures var l', before := Post(l, p), l.wallets[i].fiatBalance;
      && |l'.wallets| == |l.wallets|
      && (forall k :: 0 <= k < |l'.wallets| ==>
            l'.wallets[k] == l.wallets[k].(fiatBalance := l.wallets[k].fiatBalance - if k == i then p.cents else 0))
      && l'.rows == l.rows + if p.debitLogged
           then [Row(l.wallets[i].id, TransferOut, p.cents, before, before - p.cents, p.walletId)] else []
  {
    FindTrustIs(l.wallets, i);
    DebitAt(l, p, i);
    FindIsMember(Debit(l, p, l.wallets[i]).wallets, p.walletId);
  }

  /** Every wallet keeps its id and role; the i-th loses the cents, the j-th gains them, the others keep their balance. */
  predicate Moved(before: seq<Wallet>, after: seq<Wallet>, i: nat, j: nat, cents: nat) {
    && |after| == |before|
    && forall k :: 0 <= k < |before| ==>
         after[k] == before[k].(fiatBalance :=
           before[k].fiatBalance - (if k == i then cents else 0) + (if k == j then cents else 0))
  }

  lemma BothLegs(before: seq<Wallet>, debited: seq<Wallet>, after: seq<Wallet>, i: nat, j: nat, cents: nat)
    requires |before| == |debited| == |after|
    requires forall k :: 0 <= k < |before| ==>
      debited[k] == before[k].(fiatBalance := before[k].fiatBalance - if k == i then cents else 0)
    requires forall k :: 0 <= k < |before| ==>
      after[k] == debited[k].(fiatBalance := debited[k].fiatBalance + if k == j then cents else 0)
    ensures Moved(before, after, i, j, cents)
  {
  }

  lemma CreditAfterDebit(l: Ledger, p: Posting, i: nat, j: nat, debited: Ledger)
    requires UniqueIds(l.wallets) && i < |l.wallets| && debited == Debit(l, p, l.wallets[i])
    requires j < |l.wallets| && l.wallets[j].id == p.walletId
    ensures var l', received := Credit(debited, p, l.wallets[i].id), l.wallets[j].fiatBalance - if j == i then p.cents else 0;
      && Moved(l.wallets, l'.wallets, i, j, p.cents)
      && l'.rows == debited.rows +
           if p.creditLogged
           then [Row(p.walletId, TransferIn, p.cents, received, received + p.cents, l.wallets[i].id)] else []
  {
    DebitAt(l, p, i);
    CreditAt(debited, p, l.wallets[i].id, j);
    BothLegs(l.wallets, debited.wallets, Credit(debited, p, l.wallets[i].id).wallets, i, j, p.cents);
  }

  /** With its INSERT taken, the wallet of the beneficiary gains the same cents, and no other wallet changes. */
  lemma BeneficiaryIsCredited(l: Ledger, p: Posting, i: nat, j: nat)
    requires UniqueIds(l.wallets) && IsTrustWallet(l.wallets, i) && p.debitLogged
    requires j < |l.wallets| && l.wallets[j].id == p.walletId
    ensures var l', before := Post(l, p), l.wallets[i].fiatBalance;
      var received := l.wallets[j].fiatBalance - if j == i then p.cents else 0;
      && Moved(l.wallets, l'.wallets, i, j, p.cents)
      && l'.rows == l.rows + [Row(l.wallets[i].id, TransferOut, p.cents, before, before - p.cents, p.walletId)] +
           if p.creditLogged
           then [Row(p.walletId, TransferIn, p.cents, received, received + p.cents, l.wallets[i].id)] else []
  {
    FindTrustIs(l.wallets, i);
    CreditAfterDebit(l, p, i, j, Debit(l, p, l.wallets[i]));
  }

  /** Without a wallet of the trust nothing happens. */
  lemma NoTrustNoPosting(l: Ledger, p: Posting)
    requires forall w :: w in l.wallets ==> w.role != "trust_entity"
    ensures Post(l, p) == l
  {
    NoTrustFound(l.wallets);
  }

  lemma CreditTotal(l: Ledger, p: Posting, trustId: int)
    requires UniqueIds(l.wallets)
    ensures Total(Credit(l, p, trustId).wallets) ==
      Total(l.wallets) + if Find(l.wallets, p.walletId).Some? then p.cents else 0
  {
    if Find(l.wallets, p.walletId).Some? {
      SetTotal(l.wallets, p.walletId, Find(l.wallets, p.walletId).value.fiatBalance + p.cents);
    }
  }

  lemma PostTotal(l: Ledger, p: Posting)
    requires UniqueIds(l.wallets)
    ensures Total(Post(l, p).wallets) ==
      Total(l.wallets) - if FindTrust(l.wallets).Some? && !Arrives(l.wallets, p) then p.cents else 0
  {
    if FindTrust(l.wallets).Some? {
      TrustIsFound(l.wallets);
      var trust := FindTrust(l.wallets).value;
      var after := trust.fiatBalance - p.cents;
      SetTotal(l.wallets, trust.id, after);
      if p.debitLogged {
        SetKeepsIds(l.wallets, trust.id, after);
        SetFinds(l.wallets, trust.id, after, p.walletId);
        CreditTotal(Debit(l, p, trust), p, trust.id);
      }
    }
  }

  function Lost(wallets: seq<Wallet>, postings: seq<Posting>): nat {
    if postings == [] then 0
    else
      var p := postings[|postings| - 1];
      Lost(wallets, postings[..|postings| - 1]) + if FindTrust(wallets).Some? && !Arrives(wallets, p) then p.cents else 0
  }

  lemma {:induction false} LostNothing(wallets: seq<Wallet>, postings: seq<Posting>)
    ensures Lost(wallets, postings) == 0 <==>
      forall p :: p in postings ==> FindTrust(wallets).Some? ==> Arrives(wallets, p) || p.cents == 0
  {
    if postings != [] {
      LostNothing(wallets, postings[..|postings| - 1]);
      assert postings == postings[..|postings| - 1] + [postings[|postings| - 1]];
    }
  }

  lemma {:induction false} PostAllTotal(l: Ledger, postings: seq<Posting>)
    requires UniqueIds(l.wallets)
    ensures SameWallets(l.wallets, PostAll(l, postings).wallets)
    ensures Total(PostAll(l, postings).wallets) == Total(l.wallets) - Lost(l.wallets, postings)
  {
    if postings != [] {
      var init, p := postings[..|postings| - 1], postings[|postings| - 1];
      PostAllTotal(l, init);
      PostTotal(PostAll(l, init), p);
      PostKeepsWallets(PostAll(l, init), p);
    }
  }

  /** The sum of all balances survives a run exactly when every debit reaches an existing wallet. */
  lemma ConservedIff(l: Ledger, postings: seq<Posting>)
    requires UniqueIds(l.wallets) && FindTrust(l.wallets).Some?
    ensures Total(PostAll(l, postings).wallets) == Total(l.wallets) <==>
      forall p :: p in postings && p.cents > 0 ==> p.debitLogged && Find(l.wallets, p.walletId).Some?
  {
    PostAllTotal(l, postings);
    LostNothing(l.wallets, postings);
  }

  // ---- The log ---------------------------------------------------------------------------

  /** The rows of wallet `id` lead from one balance to the other without a gap. */
  predicate Chained(rows: seq<Row>, id: int, opening: int, closing: int) {
    if rows == [] then opening == closing
    else
      var last := rows[|rows| - 1];
      if last.walletId != id then Chained(rows[..|rows| - 1], id, opening, closing)
      else last.balanceAfter == closing && Chained(rows[..|rows| - 1], id, opening, last.balanceBefore)
  }

  function Signed(row: Row): int { if row.kind.TransferIn? then row.amount else -row.amount }

  function RowWallet(row: Row): int { row.walletId }

  predicate RowSound(row: Row) { row.balanceAfter == row.balanceBefore + Signed(row) }

  lemma {:induction false} ChainAdjacent(rows: seq<Row>, id: int, opening: int, closing: int, i: nat, j: nat)
    requires Chained(rows, id, opening, closing) && i < j < |rows|
    requires rows[i].walletId == rows[j].walletId == id
    requires forall k :: i < k < j ==> rows[k].walletId != id
    ensures rows[i].balanceAfter == rows[j].balanceBefore
  {
    var init, last := rows[..|rows| - 1], rows[|rows| - 1];
    if j < |rows| - 1 {
      ChainAdjacent(init, id, opening, if last.walletId == id then last.balanceBefore else closing, i, j);
    } else {
      LastOfChain(init, id, opening, last.balanceBefore, i);
    }
  }

  lemma {:induction false} LastOfChain(rows: seq<Row>, id: int, opening: int, closing: int, i: nat)
    requires Chained(rows, id, opening, closing) && i < |rows| && rows[i].walletId == id
    requires forall k :: i < k < |rows| ==> rows[k].walletId != id
    ensures rows[i].balanceAfter == closing
  {
    if i < |rows| - 1 { LastOfChain(rows[..|rows| - 1], id, opening, closing, i); }
  }

  lemma {:induction false} ChainAddsUp(rows: seq<Row>, id: int, opening: int, closing: int)
    requires Chained(rows, id, opening, closing) && forall row :: row in rows ==> RowSound(row)
    ensures closing == opening + SumWhere(rows, RowWallet, id, Signed)
  {
    if rows != [] {
      var init, last := rows[..|rows| - 1], rows[|rows| - 1];
      assert last in rows;
      ChainAddsUp(init, id, opening, if last.walletId == id then last.balanceBefore else closing);
    }
  }

  lemma ChainThen(rows: seq<Row>, row: Row, id: int, opening: int, closing: int)
    requires Chained(rows, id, opening, closing)
    requires row.walletId == id ==> row.balanceBefore == closing
    ensures Chained(rows + [row], id, opening, if row.walletId == id then row.balanceAfter else closing)
  {
    assert (rows + [row])[..|rows|] == rows;
  }

  lemma CreditChains(l: Ledger, p: Posting, trustId: int, k: int, opening: int)
    requires Find(l.wallets, k).Some? && p.creditLogged
    requires Chained(l.rows, k, opening, Find(l.wallets, k).value.fiatBalance)
    ensures Find(Credit(l, p, trustId).wallets, k).Some?
    ensures Chained(Credit(l, p, trustId).rows, k, opening, Find(Credit(l, p, trustId).wallets, k).value.fiatBalance)
  {
    if Find(l.wallets, p.walletId).Some? {
      var ben := Find(l.wallets, p.walletId).value;
      var row := Row(p.walletId, TransferIn, p.cents, ben.fiatBalance, ben.fiatBalance + p.cents, trustId);
      ChainThen(l.rows, row, k, opening, Find(l.wallets, k).value.fiatBalance);
      SetFinds(l.wallets, p.walletId, ben.fiatBalance + p.cents, k);
    }
  }

  lemma PostChains(l: Ledger, p: Posting, k: int, opening: int)
    requires UniqueIds(l.wallets) && Find(l.wallets, k).Some? && p.debitLogged && p.creditLogged
    requires Chained(l.rows, k, opening, Find(l.wallets, k).value.fiatBalance)
    ensures Find(Post(l, p).wallets, k).Some?
    ensures Chained(Post(l, p).rows, k, opening, Find(Post(l, p).wallets, k).value.fiatBalance)
  {
    if FindTrust(l.wallets).Some? {
      TrustIsFound(l.wallets);
      var trust := FindTrust(l.wallets).value;
      var after := trust.fiatBalance - p.cents;
      var row := Row(trust.id, TransferOut, p.cents, trust.fiatBalance, after, p.walletId);
      ChainThen(l.rows, row, k, opening, Find(l.wallets, k).value.fiatBalance);
      SetFinds(l.wallets, trust.id, after, k);
      CreditChains(Debit(l, p, trust), p, trust.id, k, opening);
    }
  }

  lemma PostRowsSound(l: Ledger, p: Posting)
    requires forall row :: row in l.rows ==> RowSound(row)
    ensures forall row :: row in Post(l, p).rows ==> RowSound(row)
  {
  }

  /** With both rows taken, the log of every wallet chains from its first balance to its present one and explains it. */
  lemma {:induction false} LogExplainsBalances(l: Ledger, postings: seq<Posting>, k: int)
    requires UniqueIds(l.wallets) && Find(l.wallets, k).Some? && l.rows == []
    requires forall p :: p in postings ==> p.debitLogged && p.creditLogged
    ensures var l' := PostAll(l, postings);
      && Find(l'.wallets, k).Some? && (forall row :: row in l'.rows ==> RowSound(row))
      && Chained(l'.rows, k, Find(l.wallets, k).value.fiatBalance, Find(l'.wallets, k).value.fiatBalance)
      && Find(l'.wallets, k).value.fiatBalance ==
           Find(l.wallets, k).value.fiatBalance + SumWhere(l'.rows, RowWallet, k, Signed)
  {
    var l', opening := PostAll(l, postings), Find(l.wallets, k).value.fiatBalance;
    if postings != [] {
      var init, p := postings[..|postings| - 1], postings[|postings| - 1];
      LogExplainsBalances(l, init, k);
      PostAllTotal(l, init);
      assert p in postings;
      PostRowsSound(PostAll(l, init), p);
      PostChains(PostAll(l, init), p, k, opening);
    }
    ChainAddsUp(l'.rows, k, opening, Find(l'.wallets, k).value.fiatBalance);
  }

  /** Two rows per disbursement: out of the trust's wallet and into the beneficiary's, each naming the other. */
  predicate Records(rows: seq<Row>, trustId: int, postings: seq<Posting>) {
    if postings == [] then rows == []
    else
      var p := postings[|postings| - 1];
      && |rows| >= 2 && Records(rows[..|rows| - 2], trustId, postings[..|postings| - 1])
      && Leg(rows[|rows| - 2], TransferOut, trustId, p.walletId, p.cents)
      && Leg(rows[|rows| - 1], TransferIn, p.walletId, trustId, p.cents)
  }

  predicate Leg(row: Row, kind: Kind, walletId: int, counterparty: int, cents: nat) {
    row.kind == kind && row.walletId == walletId && row.counterparty == counterparty && row.amount == cents
  }

  /** With both rows taken and existing beneficiaries, the log records exactly the disbursements made, in order. */
  lemma {:induction false} LogRecordsPostings(l: Ledger, postings: seq<Posting>)
    requires UniqueIds(l.wallets) && FindTrust(l.wallets).Some? && l.rows == []
    requires forall p :: p in postings ==> p.debitLogged && p.creditLogged && Find(l.wallets, p.walletId).Some?
    ensures Records(PostAll(l, postings).rows, FindTrust(l.wallets).value.id, postings)
  {
    if postings != [] {
      var init, p := postings[..|postings| - 1], postings[|postings| - 1];
      assert postings == init + [p];
      LogRecordsPostings(l, init);
      PostAllTotal(l, init);
      PostRows(PostAll(l, init), p);
    }
  }

  lemma PostRows(l: Ledger, p: Posting)
    requires FindTrust(l.wallets).Some? && Find(l.wallets, p.walletId).Some? && p.debitLogged && p.creditLogged
    ensures var rows, trustId := Post(l, p).rows, FindTrust(l.wallets).value.id;
      && |rows| == |l.rows| + 2 && rows[..|rows| - 2] == l.rows
      && Leg(rows[|rows| - 2], TransferOut, trustId, p.walletId, p.cents)
      && Leg(rows[|rows| - 1], TransferIn, p.walletId, trustId, p.cents)
  {
    var trust := FindTrust(l.wallets).value;
    SetFinds(l.wallets, trust.id, trust.fiatBalance - p.cents, p.walletId);
  }

  function Paid(postings: seq<Posting>): nat {
    if postings == [] then 0 else Paid(postings[..|postings| - 1]) + postings[|postings| - 1].cents
  }

  /**
   A driver that takes an INSERT only when every value has its placeholder: each disbursement
   drains the trust's wallet, credits nobody and leaves no row.
   */
  lemma {:induction false} StrictDriverDrains(l: Ledger, postings: seq<Posting>, k: int)
    requires UniqueIds(l.wallets) && FindTrust(l.wallets).Some? && Find(l.wallets, k).Some?
    requires forall p :: p in postings ==> p.debitLogged == p.creditLogged == (PLACEHOLDERS == BOUND_VALUES)
    ensures var l' := PostAll(l, postings);
      && l'.rows == l.rows && Find(l'.wallets, k).Some?
      && Find(l'.wallets, k).value.fiatBalance ==
           Find(l.wallets, k).value.fiatBalance - (if k == FindTrust(l.wallets).value.id then Paid(postings) else 0)
  {
    if postings != [] {
      var init, p := postings[..|postings| - 1], postings[|postings| - 1];
      StrictDriverDrains(l, init, k);
      PostAllTotal(l, init);
      assert p in postings;
      PostMoves(PostAll(l, init), p, k);
    }
  }
}
