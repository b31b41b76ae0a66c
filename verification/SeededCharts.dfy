/** What seeding leaves in the remote ledger and in the mapping table, account type by account type. */
module SeededCharts {
  import opened GlSeeding
  import opened RemoteGl

  /** The remote account has the code and the name of a trust account, and its type. */
  ghost predicate Mirrors(a: GlAccount, trust: seq<TrustAccount>) {
    exists acct :: acct in trust && a.code == acct.code && a.name == acct.name &&
      (acct.kind, a.typeId) in {("asset", 1), ("liability", 2), ("equity", 3), ("income", 4), ("expense", 5)}
  }

  /** All accounts from the n-th on were made for these trust accounts. */
  ghost predicate MadeFor(accounts: seq<GlAccount>, n: nat, trust: seq<TrustAccount>) {
    forall i :: n <= i < |accounts| ==> Mirrors(accounts[i], trust)
  }

  /** One trust account adds one account at most. */
  lemma AccountsAfter(env: Env, store: Store, existing: seq<GlAccount>, acct: TrustAccount)
    ensures var accounts := SeedOne(env, store, existing, acct).0.accounts;
      accounts == store.accounts ||
        (TypeCode(acct.kind) != 0 && accounts == store.accounts + [NewAccount(store, acct)])
  {
    if Has(existing, acct.code) {
      var id := IdOf(existing, acct.code);
      TableCallsKeepAccounts(env, store, acct, id);
      TableCallsKeepAccounts(env, InsertCall(env, store, acct, id).0, acct, id);
    } else if TypeCode(acct.kind) != 0 {
      TableCallsKeepAccounts(env, CreateCall(env, store, acct).0, acct, FreshGlId(store.accounts));
    }
  }

  lemma TableCallsKeepAccounts(env: Env, store: Store, acct: TrustAccount, id: int)
    ensures InsertCall(env, store, acct, id).0.accounts == store.accounts
    ensures UpdateCall(env, store, acct, id).0.accounts == store.accounts
  {
  }

  lemma NewMirrors(store: Store, acct: TrustAccount, trust: seq<TrustAccount>)
    requires acct in trust && TypeCode(acct.kind) != 0
    ensures Mirrors(NewAccount(store, acct), trust)
  {
  }

  lemma SeedOneMirrors(env: Env, store: Store, existing: seq<GlAccount>, acct: TrustAccount, trust: seq<TrustAccount>)
    requires acct in trust
    ensures var store' := SeedOne(env, store, existing, acct).0;
      store.accounts <= store'.accounts && MadeFor(store'.accounts, |store.accounts|, trust)
  {
    AccountsAfter(env, store, existing, acct);
    if TypeCode(acct.kind) != 0 { NewMirrors(store, acct, trust); }
  }

  lemma {:induction false} LoopMirrors(env: Env, store: Store, existing: seq<GlAccount>, rest: seq<TrustAccount>,
                                       created: nat, skipped: nat, n: nat, trust: seq<TrustAccount>)
    requires (forall acct :: acct in rest ==> acct in trust)
    requires n <= |store.accounts| && MadeFor(store.accounts, n, trust)
    ensures var store' := SeedLoop(env, store, existing, rest, created, skipped).0;
      store.accounts <= store'.accounts && MadeFor(store'.accounts, n, trust)
    decreases |rest|
  {
    if rest != [] {
      var (next, progress) := SeedOne(env, store, existing, rest[0]);
      assert rest[0] in rest && forall acct :: acct in rest[1..] ==> acct in rest;
      SeedOneMirrors(env, store, existing, rest[0], trust);
      if progress != Stop {
        LoopMirrors(env, next, existing, rest[1..], if progress == Created then created + 1 else created,
                    if progress == Skipped then skipped + 1 else skipped, n, trust);
      }
    }
  }

  /** Every account a run adds, aborted or not, mirrors a trust account of one of the five types, under that type. */
  lemma RunMirrors(env: Env, store: Store, seen: nat, trust: seq<TrustAccount>)
    ensures var store' := SeedRun(env, store, seen, trust).0;
      store.accounts <= store'.accounts && MadeFor(store'.accounts, |store.accounts|, trust)
  {
    var started := store.(calls := store.calls + 3);
    RunIsLoop(env, store, seen, trust, started);
    LoopMirrors(env, started, Listed(store, seen), trust, 0, 0, |store.accounts|, trust);
  }

  // ---- Accounts of the five types -----------------------------------------------------------

  ghost predicate HasRow(mappings: seq<Mapping>, code: string) {
    exists m :: m in mappings && m.kind == "trust_journal" && m.code == code
  }

  ghost predicate AllRowsHold(mappings: seq<Mapping>, code: string, id: int) {
    forall m :: m in mappings && m.kind == "trust_journal" && m.code == code ==> m.glId == id
  }

  lemma PresentMeans(store: Store, code: string)
    ensures Present(store, code) <==> (exists a :: a in store.accounts && a.code == code) && HasRow(store.mappings, code)
  {
    if Rows(store.mappings, code) != [] { assert Rows(store.mappings, code)[0] in Rows(store.mappings, code); }
    if m :| m in store.mappings && m.kind == "trust_journal" && m.code == code {
      assert IsFor(m, code) && m in Rows(store.mappings, code);
    }
  }

  lemma ExactMeans(store: Store, code: string)
    requires Exact(store, code)
    ensures HasRow(store.mappings, code)
    ensures exists a :: a in store.accounts && a.code == code && AllRowsHold(store.mappings, code, a.id)
  {
    PresentMeans(store, code);
    var a :| a in store.accounts && a.code == code && a.id == IdOf(store.accounts, code);
    forall m | m in store.mappings && m.kind == "trust_journal" && m.code == code ensures m.glId == a.id {
      assert m in Rows(store.mappings, code);
    }
  }

  /** Past one complete run each of the five types has its account and a row. */
  lemma FiveTypesPresent(env: Env, store: Store, seen: nat, trust: seq<TrustAccount>, acct: TrustAccount)
    requires SeedRun(env, store, seen, trust).1.Complete? && acct in trust
    requires acct.kind in {"asset", "liability", "equity", "income", "expense"}
    ensures var store' := SeedRun(env, store, seen, trust).0;
      (exists a :: a in store'.accounts && a.code == acct.code) && HasRow(store'.mappings, acct.code)
  {
    RunEvolves(env, store, seen, trust);
    PresentMeans(SeedRun(env, store, seen, trust).0, acct.code);
  }

  /** Past two, whatever ran around them, all its rows hold the id of its account. */
  lemma FiveTypesExact(env: Env, store: Store, views: seq<nat>, trust: seq<TrustAccount>, i: nat, j: nat, acct: TrustAccount)
    requires i < j < |views| && acct in trust
    requires StatusAt(env, store, views, trust, i).Complete? && StatusAt(env, store, views, trust, j).Complete?
    requires acct.kind in {"asset", "liability", "equity", "income", "expense"}
    ensures var final := Runs(env, store, views, trust);
      && HasRow(final.mappings, acct.code)
      && exists a :: a in final.accounts && a.code == acct.code && AllRowsHold(final.mappings, acct.code, a.id)
  {
    SeedingConverges(env, store, views, trust, i, j);
    ExactMeans(Runs(env, store, views, trust), acct.code);
  }

  // ---- All others ---------------------------------------------------------------------------

  /** Neither an account nor a row of this code is new or gone. */
  ghost predicate LeftAlone(store: Store, store': Store, code: string) {
    && (forall a: GlAccount :: a.code == code ==> (a in store'.accounts <==> a in store.accounts))
    && (forall m: Mapping :: m.kind == "trust_journal" && m.code == code ==> (m in store'.mappings <==> m in store.mappings))
  }

  lemma OtherCodeAlone(env: Env, store: Store, existing: seq<GlAccount>, acct: TrustAccount, code: string)
    requires acct.code != code
    ensures LeftAlone(store, SeedOne(env, store, existing, acct).0, code)
  {
    var store' := SeedOne(env, store, existing, acct).0;
    OtherCodeKept(env, store, existing, acct, code);
    AccountsAfter(env, store, existing, acct);
    forall m: Mapping | m.kind == "trust_journal" && m.code == code ensures m in store'.mappings <==> m in store.mappings {
      assert m in Rows(store'.mappings, code) <==> m in Rows(store.mappings, code);
    }
  }

  lemma {:induction false} LoopLeavesAlone(env: Env, store: Store, existing: seq<GlAccount>, trust: seq<TrustAccount>,
                                           created: nat, skipped: nat, code: string)
    requires forall a :: a in existing ==> a.code != code
    requires forall acct :: acct in trust && acct.code == code ==>
      acct.kind !in {"asset", "liability", "equity", "income", "expense"}
    ensures LeftAlone(store, SeedLoop(env, store, existing, trust, created, skipped).0, code)
    decreases |trust|
  {
    if trust != [] {
      var (next, progress) := SeedOne(env, store, existing, trust[0]);
      assert trust[0] in trust && forall acct :: acct in trust[1..] ==> acct in trust;
      if trust[0].code != code { OtherCodeAlone(env, store, existing, trust[0], code); }
      if progress != Stop {
        LoopLeavesAlone(env, next, existing, trust[1..], if progress == Created then created + 1 else created,
                        if progress == Skipped then skipped + 1 else skipped, code);
      }
    }
  }

  /** A code that is not listed, and that no trust account of the five types has, gets neither account nor row. */
  lemma OtherTypesLeftAlone(env: Env, store: Store, seen: nat, trust: seq<TrustAccount>, code: string)
    requires forall a :: a in Listed(store, seen) ==> a.code != code
    requires forall acct :: acct in trust && acct.code == code ==>
      acct.kind !in {"asset", "liability", "equity", "income", "expense"}
    ensures LeftAlone(store, SeedRun(env, store, seen, trust).0, code)
  {
    var started := store.(calls := store.calls + 3);
    RunIsLoop(env, store, seen, trust, started);
    LoopLeavesAlone(env, started, Listed(store, seen), trust, 0, 0, code);
  }

  // ---- When calls fail --------------------------------------------------------------------------

  /** A call may take effect unnoticed. */
  lemma AttemptIs(env: Env, store: Store, after: Store)
    requires after.calls == store.calls
    ensures var (store', ok) := Attempt(env, store, after);
      && (ok <==> env.reply(store.calls) == Done)
      && store' == (if env.reply(store.calls) == Down then store else after).(calls := store.calls + 1)
  {
  }

  /** A run gets to its loop iff its first three calls succeed; until then it changes nothing. */
  lemma OpeningCalls(env: Env, store: Store, seen: nat, trust: seq<TrustAccount>)
    ensures var (store', status), first := SeedRun(env, store, seen, trust), store.calls;
      if env.reply(first) == Done && env.reply(first + 1) == Done && env.reply(first + 2) == Done then
        (store', status) == SeedLoop(env, store.(calls := first + 3), Listed(store, seen), trust, 0, 0)
      else status == Aborted && store'.accounts == store.accounts && store'.mappings == store.mappings
  {
  }

  // ---- What a row says ------------------------------------------------------------------------

  /** A new account is written under a new id, and its first row names it. */
  lemma NewAccountRow(env: Env, store: Store, existing: seq<GlAccount>, acct: TrustAccount)
    requires SeedOne(env, store, existing, acct).1 == Created
    ensures exists a: GlAccount ::
      && a.code == acct.code && a.name == acct.name && (forall b :: b in store.accounts ==> b.id < a.id) && a.id > 0
      && var store' := SeedOne(env, store, existing, acct).0;
      && store'.accounts == store.accounts + [a]
      && store'.mappings == store.mappings +
           if HasRow(store.mappings, acct.code) then []
           else [Mapping("trust_journal", acct.code, a.id, acct.name + " (" + acct.kind + ")")]
  {
    var made := NewAccount(store, acct);
    PresentMeans(store.(accounts := [made]), acct.code);
    assert made in [made];
    assert store.mappings + [] == store.mappings;
    assert SeedOne(env, store, existing, acct).0.accounts == store.accounts + [made];
  }

  /** All rows of the trust account's code hold this id and name it. */
  ghost predicate RowsSay(mappings: seq<Mapping>, acct: TrustAccount, id: int) {
    forall m :: m in mappings && m.kind == "trust_journal" && m.code == acct.code ==>
      m.glId == id && m.description == acct.name + " (" + acct.kind + ")"
  }

  lemma UpdatedRowsSay(mappings: seq<Mapping>, acct: TrustAccount, id: int)
    ensures RowsSay(UpdateRows(mappings, acct.code, id, Describe(acct)), acct, id)
  {
    var updated := UpdateRows(mappings, acct.code, id, Describe(acct));
    RowsUpdated(mappings, acct.code, id, Describe(acct), acct.code);
    forall m | m in updated && m.kind == "trust_journal" && m.code == acct.code
      ensures m.glId == id && m.description == acct.name + " (" + acct.kind + ")"
    {
      assert m in Rows(updated, acct.code);
    }
  }

  /** Past a listed account they do. */
  lemma ListedRowsSay(env: Env, store: Store, existing: seq<GlAccount>, acct: TrustAccount)
    requires Has(existing, acct.code) && SeedOne(env, store, existing, acct).1 != Stop
    ensures RowsSay(SeedOne(env, store, existing, acct).0.mappings, acct, IdOf(existing, acct.code))
  {
    var id := IdOf(existing, acct.code);
    UpdatedRowsSay(InsertCall(env, store, acct, id).0.mappings, acct, id);
  }
}
