/**
 POST /fineract/seed-gl (server/routes/admin.js): mirror the trust chart of accounts into
 the remote ledger and into a mapping table. A failing call aborts the run where it stands.
 */
module GlSeeding {
  import opened RemoteGl

  datatype TrustAccount = TrustAccount(code: string, name: string, kind: string)
  /** A remote account with the name and the type it was created with. */
  datatype GlAccount = GlAccount(code: string, name: string, typeId: int, id: int)
  datatype Mapping = Mapping(kind: string, code: string, glId: int, description: string)

  /** Remote accounts, the mapping table, and the number of calls made so far. */
  datatype Store = Store(accounts: seq<GlAccount>, mappings: seq<Mapping>, calls: nat)

  datatype Status = Aborted | Complete(created: nat, skipped: nat)

  const TRUST_JOURNAL := "trust_journal"

  /** Unknown account types have no type code and are passed over. */
  function TypeCode(kind: string): (typeId: int)
    ensures typeId != 0 <==> kind in {"asset", "liability", "equity", "income", "expense"}
  {
    if kind == "asset" then 1
    else if kind == "liability" then 2
    else if kind == "equity" then 3
    else if kind == "income" then 4
    else if kind == "expense" then 5
    else 0
  }

  predicate Known(acct: TrustAccount) {
    acct.kind in {"asset", "liability", "equity", "income", "expense"}
  }

  function Describe(acct: TrustAccount): string {
    acct.name + " (" + acct.kind + ")"
  }

  // ---- Accounts and mapping rows ---------------------------------------------------

  predicate Has(accounts: seq<GlAccount>, code: string) {
    exists a :: a in accounts && a.code == code
  }

  /** The id of the first account with a code. */
  function IdOf(accounts: seq<GlAccount>, code: string): (id: int)
    requires Has(accounts, code)
    ensures exists a :: a in accounts && a.code == code && a.id == id
  {
    if accounts[0].code == code then accounts[0].id
    else
      assert accounts == [accounts[0]] + accounts[1..];
      IdOf(accounts[1..], code)
  }

  function FreshGlId(accounts: seq<GlAccount>): (id: int)
    ensures id > 0 && forall a :: a in accounts ==> a.id < id
  {
    if accounts == [] then 1
    else
      var before, last := FreshGlId(accounts[..|accounts| - 1]), accounts[|accounts| - 1];
      assert accounts == accounts[..|accounts| - 1] + [last];
      if last.id < before then before else last.id + 1
  }

  predicate IsFor(m: Mapping, code: string) {
    m.kind == TRUST_JOURNAL && m.code == code
  }

  /** The trust journal rows of a code. */
  function Rows(mappings: seq<Mapping>, code: string): (rows: seq<Mapping>)
    ensures forall m :: m in rows <==> m in mappings && IsFor(m, code)
  {
    if mappings == [] then []
    else
      var before, last := Rows(mappings[..|mappings| - 1], code), mappings[|mappings| - 1];
      assert mappings == mappings[..|mappings| - 1] + [last];
      if IsFor(last, code) then before + [last] else before
  }

  /** The rows of every other mapping type. */
  function Others(mappings: seq<Mapping>): seq<Mapping> {
    if mappings == [] then []
    else
      var before, last := Others(mappings[..|mappings| - 1]), mappings[|mappings| - 1];
      if last.kind == TRUST_JOURNAL then before else before + [last]
  }

  /** INSERT ... WHERE NOT EXISTS. */
  function InsertIfAbsent(mappings: seq<Mapping>, code: string, id: int, description: string): seq<Mapping> {
    if Rows(mappings, code) != [] then mappings
    else mappings + [Mapping(TRUST_JOURNAL, code, id, description)]
  }

  /** UPDATE ... WHERE mapping_type = 'trust_journal' AND trust_account_code = code. */
  function UpdateRows(mappings: seq<Mapping>, code: string, id: int, description: string): (updated: seq<Mapping>)
    ensures |updated| == |mappings|
  {
    if mappings == [] then []
    else
      var before, last := UpdateRows(mappings[..|mappings| - 1], code, id, description), mappings[|mappings| - 1];
      before + [if IsFor(last, code) then last.(glId := id, description := description) else last]
  }

  // ---- One run ---------------------------------------------------------------------

  /** A call whose effect is to take the store to `after`. */
  function Attempt(env: Env, store: Store, after: Store): (Store, bool) {
    var next := store.calls + 1;
    match env.reply(store.calls)
    case Done => (after.(calls := next), true)
    case Lost => (after.(calls := next), false)
    case Down => (store.(calls := next), false)
  }

  /** Creating an account is refused when its code is taken. */
  function CreateCall(env: Env, store: Store, acct: TrustAccount): (Store, bool) {
    if Has(store.accounts, acct.code) then (store.(calls := store.calls + 1), false)
    else Attempt(env, store, store.(accounts := store.accounts + [NewAccount(store, acct)]))
  }

  function NewAccount(store: Store, acct: TrustAccount): GlAccount {
    GlAccount(acct.code, acct.name, TypeCode(acct.kind), FreshGlId(store.accounts))
  }

  function InsertCall(env: Env, store: Store, acct: TrustAccount, id: int): (Store, bool) {
    Attempt(env, store, store.(mappings := InsertIfAbsent(store.mappings, acct.code, id, Describe(acct))))
  }

  function UpdateCall(env: Env, store: Store, acct: TrustAccount, id: int): (Store, bool) {
    Attempt(env, store, store.(mappings := UpdateRows(store.mappings, acct.code, id, Describe(acct))))
  }

  /** What one trust account comes to: whether the run goes on, and what it adds to the two counters. */
  datatype Progress = Stop | Skipped | Created | Passed

  function SeedOne(env: Env, store: Store, existing: seq<GlAccount>, acct: TrustAccount): (Store, Progress) {
    if Has(existing, acct.code) then
      var id := IdOf(existing, acct.code);
      var (inserted, ok) := InsertCall(env, store, acct, id);
      if !ok then (inserted, Stop)
      else
        var (updated, ok') := UpdateCall(env, inserted, acct, id);
        (updated, if ok' then Skipped else Stop)
    else if TypeCode(acct.kind) == 0 then (store, Passed)
    else
      var (made, ok) := CreateCall(env, store, acct);
      if !ok then (made, Stop)
      else
        var (inserted, ok') := InsertCall(env, made, acct, FreshGlId(store.accounts));
        (inserted, if ok' then Created else Stop)
  }

  function SeedLoop(env: Env, store: Store, existing: seq<GlAccount>, trust: seq<TrustAccount>,
                    created: nat, skipped: nat): (Store, Status)
    decreases |trust|
  {
    if trust == [] then (store, Complete(created, skipped))
    else
      var (store', progress) := SeedOne(env, store, existing, trust[0]);
      if progress == Stop then (store', Aborted)
      else
        SeedLoop(env, store', existing, trust[1..],
                 if progress == Created then created + 1 else created,
                 if progress == Skipped then skipped + 1 else skipped)
  }

  /** The account listing is cached, so a run may see only the first `seen` accounts. */
  function Listed(store: Store, seen: nat): seq<GlAccount> {
    if seen < |store.accounts| then store.accounts[..seen] else store.accounts
  }

  /** Health check, account listing, chart of accounts, then the loop. */
  function SeedRun(env: Env, store: Store, seen: nat, trust: seq<TrustAccount>): (Store, Status) {
    if env.reply(store.calls) != Done then (store.(calls := store.calls + 1), Aborted)
    else if env.reply(store.calls + 1) != Done then (store.(calls := store.calls + 2), Aborted)
    else if env.reply(store.calls + 2) != Done then (store.(calls := store.calls + 3), Aborted)
    else SeedLoop(env, store.(calls := store.calls + 3), Listed(store, seen), trust, 0, 0)
  }

  // ---- The route as it runs --------------------------------------------------------

  class SeedJob {
    const env: Env
    var store: Store

    constructor (env: Env, store: Store)
      ensures this.env == env && this.store == store
    {
      this.env := env;
      this.store := store;
    }

    /** One remote or database call without a result of its own. */
    method Call(after: Store) returns (ok: bool)
      modifies this
      ensures (store, ok) == Attempt(env, old(store), after)
    {
      var reply := env.reply(store.calls);
      var next := store.calls + 1;
      store := (if reply == Down then store else after).(calls := next);
      ok := reply == Done;
    }

    method SeedAccount(existing: seq<GlAccount>, acct: TrustAccount) returns (progress: Progress)
      modifies this
      ensures (store, progress) == SeedOne(env, old(store), existing, acct)
    {
      if Has(existing, acct.code) {
        var id := IdOf(existing, acct.code);
        var ok := Call(store.(mappings := InsertIfAbsent(store.mappings, acct.code, id, Describe(acct))));
        if !ok { return Stop; }
        ok := Call(store.(mappings := UpdateRows(store.mappings, acct.code, id, Describe(acct))));
        return if ok then Skipped else Stop;
      }
      var typeId := TypeCode(acct.kind);
      if typeId == 0 { return Passed; }
      var id := FreshGlId(store.accounts);
      if Has(store.accounts, acct.code) {
        store := store.(calls := store.calls + 1);
        return Stop;
      }
      var ok := Call(store.(accounts := store.accounts + [GlAccount(acct.code, acct.name, typeId, id)]));
      if !ok { return Stop; }
      ok := Call(store.(mappings := InsertIfAbsent(store.mappings, acct.code, id, Describe(acct))));
      return if ok then Created else Stop;
    }

    method Run(seen: nat, trust: seq<TrustAccount>) returns (status: Status)
      modifies this
      ensures (store, status) == SeedRun(env, old(store), seen, trust)
    {
      var existing := Listed(store, seen);
      // The health check, the account listing and the chart of accounts.
      var ok := Call(store);
      if !ok { return Aborted; }
      ok := Call(store);
      if !ok { return Aborted; }
      ok := Call(store);
      if !ok { return Aborted; }
      status := Loop(existing, trust);
    }

    method Loop(existing: seq<GlAccount>, trust: seq<TrustAccount>) returns (status: Status)
      modifies this
      ensures (store, status) == SeedLoop(env, old(store), existing, trust, 0, 0)
    {
      var created, skipped := 0, 0;
      for i := 0 to |trust|
        invariant SeedLoop(env, store, existing, trust[i..], created, skipped) ==
                  SeedLoop(env, old(store), existing, trust, 0, 0)
      {
        assert trust[i..][0] == trust[i] && trust[i..][1..] == trust[i + 1..];
        var progress := SeedAccount(existing, trust[i]);
        if progress == Stop { return Aborted; }
        if progress == Created { created := created + 1; }
        if progress == Skipped { skipped := skipped + 1; }
      }
      return Complete(created, skipped);
    }
  }

  // ---- Laws of the mapping table -----------------------------------------------------

  lemma RowsAppend(mappings: seq<Mapping>, m: Mapping, code: string)
    ensures Rows(mappings + [m], code) == Rows(mappings, code) + (if IsFor(m, code) then [m] else [])
    ensures Others(mappings + [m]) == Others(mappings) + (if m.kind == TRUST_JOURNAL then [] else [m])
  {
    assert (mappings + [m])[..|mappings|] == mappings;
  }

  /** Inserting adds the first row of a code and touches no other code. */
  lemma RowsInserted(mappings: seq<Mapping>, code: string, id: int, description: string, other: string)
    ensures Rows(InsertIfAbsent(mappings, code, id, description), other) ==
      if other == code && Rows(mappings, code) == [] then [Mapping(TRUST_JOURNAL, code, id, description)]
      else Rows(mappings, other)
    ensures Others(InsertIfAbsent(mappings, code, id, description)) == Others(mappings)
  {
    RowsAppend(mappings, Mapping(TRUST_JOURNAL, code, id, description), other);
  }

  predicate AllHold(rows: seq<Mapping>, id: int) {
    forall m :: m in rows ==> m.glId == id
  }

  predicate AllSay(rows: seq<Mapping>, description: string) {
    forall m :: m in rows ==> m.description == description
  }

  /** Updating sets every row of a code, keeps their number, and touches no other code. */
  lemma {:induction false} RowsUpdated(mappings: seq<Mapping>, code: string, id: int, description: string, other: string)
    ensures var updated := Rows(UpdateRows(mappings, code, id, description), other);
      && |updated| == |Rows(mappings, other)|
      && (if other == code then AllHold(updated, id) && AllSay(updated, description) else updated == Rows(mappings, other))
      && Others(UpdateRows(mappings, code, id, description)) == Others(mappings)
  {
    if mappings != [] {
      var init, last := mappings[..|mappings| - 1], mappings[|mappings| - 1];
      RowsUpdated(init, code, id, description, other);
      var before := UpdateRows(init, code, id, description);
      var m := if IsFor(last, code) then last.(glId := id, description := description) else last;
      assert UpdateRows(mappings, code, id, description) == before + [m];
      RowsAppend(before, m, other);
    }
  }

  lemma HasExtended(accounts: seq<GlAccount>, more: seq<GlAccount>, code: string)
    requires Has(accounts, code)
    ensures Has(accounts + more, code)
  {
    var a :| a in accounts && a.code == code;
    assert a in accounts + more;
  }

  lemma HasRest(accounts: seq<GlAccount>, code: string)
    requires Has(accounts, code) && accounts[0].code != code
    ensures Has(accounts[1..], code)
  {
    assert accounts == [accounts[0]] + accounts[1..];
  }

  lemma {:induction false} IdOfExtended(accounts: seq<GlAccount>, more: seq<GlAccount>, code: string)
    requires Has(accounts, code)
    ensures Has(accounts + more, code) && IdOf(accounts + more, code) == IdOf(accounts, code)
  {
    HasExtended(accounts, more, code);
    if accounts[0].code != code {
      HasRest(accounts, code);
      IdOfExtended(accounts[1..], more, code);
      assert (accounts + more)[1..] == accounts[1..] + more;
    }
  }

  lemma IdOfPrefix(prefix: seq<GlAccount>, accounts: seq<GlAccount>, code: string)
    requires prefix <= accounts && Has(prefix, code)
    ensures Has(accounts, code) && IdOf(accounts, code) == IdOf(prefix, code)
  {
    assert accounts == prefix + accounts[|prefix|..];
    IdOfExtended(prefix, accounts[|prefix|..], code);
  }

  // ---- Single steps ----------------------------------------------------------------

  /** Account and at least one row: what a code has once a run got past it. */
  predicate Present(store: Store, code: string) {
    Has(store.accounts, code) && Rows(store.mappings, code) != []
  }

  /** All rows of the code hold the id of its account. */
  predicate Exact(store: Store, code: string) {
    Present(store, code) && AllHold(Rows(store.mappings, code), IdOf(store.accounts, code))
  }

  /** What every step of every run, aborted or not, does at most. */
  ghost predicate Evolves(store: Store, store': Store) {
    && store.accounts <= store'.accounts
    && (forall code :: |Rows(store'.mappings, code)| == |Rows(store.mappings, code)| ||
                       (Rows(store.mappings, code) == [] && |Rows(store'.mappings, code)| == 1))
    && (forall code :: Exact(store, code) ==> Exact(store', code))
    && Others(store'.mappings) == Others(store.mappings)
  }

  lemma EvolvesTransitive(a: Store, b: Store, c: Store)
    requires Evolves(a, b) && Evolves(b, c)
    ensures Evolves(a, c)
  {
  }

  /** Rows that stay as they are, but for a first row where there was none. */
  ghost predicate OnlyFirstRows(before: seq<Mapping>, after: seq<Mapping>, inserted: string) {
    forall code :: Rows(after, code) == Rows(before, code) ||
                   (code == inserted && Rows(before, code) == [] && |Rows(after, code)| == 1)
  }

  lemma FirstRowsEvolve(store: Store, store': Store, inserted: string)
    requires store.accounts == store'.accounts && OnlyFirstRows(store.mappings, store'.mappings, inserted)
    requires Others(store'.mappings) == Others(store.mappings)
    ensures Evolves(store, store')
  {
  }

  lemma InsertOnlyFirst(mappings: seq<Mapping>, code: string, id: int, description: string)
    ensures OnlyFirstRows(mappings, InsertIfAbsent(mappings, code, id, description), code)
    ensures Rows(InsertIfAbsent(mappings, code, id, description), code) != []
    ensures Others(InsertIfAbsent(mappings, code, id, description)) == Others(mappings)
  {
    RowsInserted(mappings, code, id, description, code);
    forall other { RowsInserted(mappings, code, id, description, other); }
  }

  /** Whether or not a call takes effect, the store evolves as the call intends. */
  lemma AttemptEvolves(env: Env, store: Store, after: Store)
    requires Evolves(store, after)
    ensures Evolves(store, Attempt(env, store, after).0)
  {
    var attempted := Attempt(env, store, after).0;
    var mappings, accounts := attempted.mappings, attempted.accounts;
    assert (mappings == after.mappings && accounts == after.accounts) ||
           (mappings == store.mappings && accounts == store.accounts);
  }

  lemma InsertEvolves(env: Env, store: Store, acct: TrustAccount, id: int)
    ensures var (store', ok) := InsertCall(env, store, acct, id);
      && Evolves(store, store') && store'.accounts == store.accounts
      && (ok ==> Rows(store'.mappings, acct.code) != [])
  {
    var after := store.(mappings := InsertIfAbsent(store.mappings, acct.code, id, Describe(acct)));
    InsertedEvolves(store, after, acct, id);
    AttemptEvolves(env, store, after);
  }

  lemma InsertedEvolves(store: Store, after: Store, acct: TrustAccount, id: int)
    requires after == store.(mappings := InsertIfAbsent(store.mappings, acct.code, id, Describe(acct)))
    ensures Evolves(store, after) && Rows(after.mappings, acct.code) != []
  {
    InsertOnlyFirst(store.mappings, acct.code, id, Describe(acct));
    FirstRowsEvolve(store, after, acct.code);
  }

  lemma UpdateEvolves(env: Env, store: Store, acct: TrustAccount, id: int)
    requires Has(store.accounts, acct.code) && id == IdOf(store.accounts, acct.code)
    ensures var (store', ok) := UpdateCall(env, store, acct, id);
      && Evolves(store, store') && store'.accounts == store.accounts
      && (ok && Rows(store.mappings, acct.code) != [] ==> Exact(store', acct.code))
  {
    var after := store.(mappings := UpdateRows(store.mappings, acct.code, id, Describe(acct)));
    UpdatedEvolves(store, after, acct, id);
    AttemptEvolves(env, store, after);
  }

  lemma UpdatedEvolves(store: Store, after: Store, acct: TrustAccount, id: int)
    requires Has(store.accounts, acct.code) && id == IdOf(store.accounts, acct.code)
    requires after == store.(mappings := UpdateRows(store.mappings, acct.code, id, Describe(acct)))
    ensures Evolves(store, after)
    ensures Rows(store.mappings, acct.code) != [] ==> Exact(after, acct.code)
  {
    RowsUpdated(store.mappings, acct.code, id, Describe(acct), acct.code);
    forall code {
      RowsUpdated(store.mappings, acct.code, id, Describe(acct), code);
    }
  }

  lemma CreateEvolves(env: Env, store: Store, acct: TrustAccount)
    ensures var (store', ok) := CreateCall(env, store, acct);
      && Evolves(store, store') && store'.mappings == store.mappings
      && (ok ==> Has(store'.accounts, acct.code) && |store'.accounts| == |store.accounts| + 1)
      && (Has(store.accounts, acct.code) ==> !ok && store'.accounts == store.accounts)
  {
    var made := [NewAccount(store, acct)];
    forall other | Has(store.accounts, other) {
      IdOfExtended(store.accounts, made, other);
    }
    assert made[0] in store.accounts + made;
  }

  /** One trust account: the store evolves, and if the run goes on a known code is present, exactly so if it was listed. */
  lemma SeedOneEvolves(env: Env, store: Store, existing: seq<GlAccount>, acct: TrustAccount)
    requires existing <= store.accounts
    ensures var (store', progress) := SeedOne(env, store, existing, acct);
      && Evolves(store, store')
      && (progress != Stop && Known(acct) ==> Present(store', acct.code))
      && (progress != Stop && Has(existing, acct.code) ==> Exact(store', acct.code))
      && (progress == Created ==> !Has(store.accounts, acct.code))
      && (progress != Stop ==> |store'.accounts| == |store.accounts| + if progress == Created then 1 else 0)
      && (progress == Passed ==> !Known(acct))
      && (Has(store.accounts, acct.code) || !Known(acct) ==> store'.accounts == store.accounts)
  {
    if Has(existing, acct.code) {
      var id := IdOf(existing, acct.code);
      IdOfPrefix(existing, store.accounts, acct.code);
      InsertEvolves(env, store, acct, id);
      var inserted := InsertCall(env, store, acct, id).0;
      UpdateEvolves(env, inserted, acct, id);
      EvolvesTransitive(store, inserted, UpdateCall(env, inserted, acct, id).0);
    } else if Known(acct) {
      CreateEvolves(env, store, acct);
      var made := CreateCall(env, store, acct).0;
      InsertEvolves(env, made, acct, FreshGlId(store.accounts));
      EvolvesTransitive(store, made, InsertCall(env, made, acct, FreshGlId(store.accounts)).0);
    }
  }

  // ---- Whole runs --------------------------------------------------------------------

  lemma PresentPersists(a: Store, b: Store, code: string)
    requires Evolves(a, b) && Present(a, code)
    ensures Present(b, code)
  {
    IdOfPrefix(a.accounts, b.accounts, code);
  }

  ghost predicate Listing(accounts: seq<GlAccount>, trust: seq<TrustAccount>) {
    forall acct :: acct in trust && Known(acct) ==> Has(accounts, acct.code)
  }

  /** The loop: what a complete pass establishes, and that it creates nothing once all accounts exist. */
  lemma {:induction false} LoopEvolves(env: Env, store: Store, existing: seq<GlAccount>, trust: seq<TrustAccount>,
                                       created: nat, skipped: nat)
    requires existing <= store.accounts
    ensures var (store', status) := SeedLoop(env, store, existing, trust, created, skipped);
      && Evolves(store, store')
      && (status.Complete? ==> forall acct :: acct in trust && Known(acct) ==> Present(store', acct.code))
      && (status.Complete? ==> forall acct :: acct in trust && Has(existing, acct.code) ==> Exact(store', acct.code))
      && (Listing(store.accounts, trust) ==> store'.accounts == store.accounts)
      && (Listing(store.accounts, trust) && status.Complete? ==> Listing(existing, trust))
      && (status.Complete? ==> |store'.accounts| == |store.accounts| + status.created - created)
    decreases |trust|
  {
    if trust != [] {
      var acct, rest := trust[0], trust[1..];
      assert trust == [acct] + rest;
      var (next, progress) := SeedOne(env, store, existing, acct);
      SeedOneEvolves(env, store, existing, acct);
      if progress != Stop {
        var created' := if progress == Created then created + 1 else created;
        var skipped' := if progress == Skipped then skipped + 1 else skipped;
        LoopEvolves(env, next, existing, rest, created', skipped');
        var final := SeedLoop(env, next, existing, rest, created', skipped').0;
        EvolvesTransitive(store, next, final);
        if Known(acct) { PresentPersists(next, final, acct.code); }
      }
    }
  }

  /** What one run, aborted or not, can have done; a complete one reports exactly the accounts it added. */
  ghost predicate RanTo(store: Store, trust: seq<TrustAccount>, store': Store, status: Status) {
    && Evolves(store, store')
    && (Listing(store.accounts, trust) ==> store'.accounts == store.accounts)
    && (status.Complete? ==>
          && |store'.accounts| == |store.accounts| + status.created
          && (forall acct :: acct in trust && Known(acct) ==> Present(store', acct.code))
          && (Listing(store.accounts, trust) ==> forall acct :: acct in trust && Known(acct) ==> Exact(store', acct.code)))
  }

  lemma RunEvolves(env: Env, store: Store, seen: nat, trust: seq<TrustAccount>)
    ensures RanTo(store, trust, SeedRun(env, store, seen, trust).0, SeedRun(env, store, seen, trust).1)
  {
    var started := store.(calls := store.calls + 3);
    var looped := SeedLoop(env, started, Listed(store, seen), trust, 0, 0);
    LoopRuns(env, started, Listed(store, seen), trust);
    RanFromStart(store, started, trust, looped.0, looped.1);
    RunIsLoop(env, store, seen, trust, started);
    var store' := SeedRun(env, store, seen, trust).0;
    if SeedRun(env, store, seen, trust) != looped { NothingRan(store, trust, store'); }
  }

  /** A run that does not get to its loop is aborted and has changed nothing. */
  lemma RunIsLoop(env: Env, store: Store, seen: nat, trust: seq<TrustAccount>, started: Store)
    requires started == store.(calls := store.calls + 3)
    ensures var (store', status) := SeedRun(env, store, seen, trust);
      SeedRun(env, store, seen, trust) == SeedLoop(env, started, Listed(store, seen), trust, 0, 0) ||
        (status == Aborted && store'.accounts == store.accounts && store'.mappings == store.mappings)
  {
  }

  lemma NothingRan(store: Store, trust: seq<TrustAccount>, store': Store)
    requires store'.accounts == store.accounts && store'.mappings == store.mappings
    ensures RanTo(store, trust, store', Aborted)
  {
  }

  lemma LoopRuns(env: Env, store: Store, existing: seq<GlAccount>, trust: seq<TrustAccount>)
    requires existing <= store.accounts
    ensures var (store', status) := SeedLoop(env, store, existing, trust, 0, 0);
      RanTo(store, trust, store', status)
  {
    LoopEvolves(env, store, existing, trust, 0, 0);
  }

  lemma RanFromStart(store: Store, started: Store, trust: seq<TrustAccount>, store': Store, status: Status)
    requires started.accounts == store.accounts && started.mappings == store.mappings
    requires RanTo(started, trust, store', status)
    ensures RanTo(store, trust, store', status)
  {
    assert forall code :: Exact(store, code) ==> Exact(started, code);
  }

  /** A history of runs, each with its own view of the cached listing. */
  function Runs(env: Env, store: Store, views: seq<nat>, trust: seq<TrustAccount>): Store {
    if views == [] then store
    else SeedRun(env, Runs(env, store, views[..|views| - 1], trust), views[|views| - 1], trust).0
  }

  function StatusAt(env: Env, store: Store, views: seq<nat>, trust: seq<TrustAccount>, i: nat): Status
    requires i < |views|
  {
    SeedRun(env, Runs(env, store, views[..i], trust), views[i], trust).1
  }

  lemma {:induction false} RunsEvolve(env: Env, store: Store, views: seq<nat>, trust: seq<TrustAccount>, i: nat)
    requires i <= |views|
    ensures var middle, final := Runs(env, store, views[..i], trust), Runs(env, store, views, trust);
      && Evolves(middle, final)
      && (Listing(middle.accounts, trust) ==> final.accounts == middle.accounts)
    decreases |views|
  {
    if i == |views| {
      assert views[..i] == views;
    } else {
      var init := views[..|views| - 1];
      assert init[..i] == views[..i];
      RunsEvolve(env, store, init, trust, i);
      RunEvolves(env, Runs(env, store, init, trust), views[|views| - 1], trust);
      EvolvesTransitive(Runs(env, store, views[..i], trust), Runs(env, store, init, trust), Runs(env, store, views, trust));
    }
  }

  /** From a complete run on, every trust account of known type is listed and none is created again. */
  lemma NoneCreatedAfterComplete(env: Env, store: Store, views: seq<nat>, trust: seq<TrustAccount>, i: nat, j: nat)
    requires i < j < |views| && StatusAt(env, store, views, trust, i).Complete?
    ensures var first, later := Runs(env, store, views[..i + 1], trust), Runs(env, store, views[..j + 1], trust);
      && Listing(first.accounts, trust) && later.accounts == first.accounts
      && (StatusAt(env, store, views, trust, j).Complete? ==>
            StatusAt(env, store, views, trust, j).created == 0 &&
            forall acct :: acct in trust && Known(acct) ==> Exact(later, acct.code))
  {
    assert views[..i + 1][..i] == views[..i] && views[..j + 1][..j] == views[..j] && views[..j][..i + 1] == views[..i + 1];
    CompleteLists(env, Runs(env, store, views[..i], trust), views[i], trust);
    ListingStays(env, store, views[..j], trust, i + 1);
    ListedRun(env, Runs(env, store, views[..j], trust), views[j], trust);
  }

  lemma CompleteLists(env: Env, store: Store, seen: nat, trust: seq<TrustAccount>)
    requires SeedRun(env, store, seen, trust).1.Complete?
    ensures Listing(SeedRun(env, store, seen, trust).0.accounts, trust)
  {
    RunEvolves(env, store, seen, trust);
    var final := SeedRun(env, store, seen, trust).0;
    forall acct | acct in trust && Known(acct) ensures Has(final.accounts, acct.code) {
      assert Present(final, acct.code);
    }
  }

  lemma ListingStays(env: Env, store: Store, views: seq<nat>, trust: seq<TrustAccount>, i: nat)
    requires i <= |views| && Listing(Runs(env, store, views[..i], trust).accounts, trust)
    ensures Runs(env, store, views, trust).accounts == Runs(env, store, views[..i], trust).accounts
  {
    RunsEvolve(env, store, views, trust, i);
  }

  lemma ListedRun(env: Env, store: Store, seen: nat, trust: seq<TrustAccount>)
    requires Listing(store.accounts, trust)
    ensures var (store', status) := SeedRun(env, store, seen, trust);
      && store'.accounts == store.accounts
      && (status.Complete? ==> status.created == 0 && forall acct :: acct in trust && Known(acct) ==> Exact(store', acct.code))
  {
    RunEvolves(env, store, seen, trust);
  }

  /**
   Once two runs have been complete, and whatever ran before, between and after them: every
   trust account of known type has its remote account, every mapping row of its code holds
   that account's id, and there is one such row unless there were more to begin with. Rows of
   other mapping types never change.
   */
  lemma SeedingConverges(env: Env, store: Store, views: seq<nat>, trust: seq<TrustAccount>, i: nat, j: nat)
    requires i < j < |views|
    requires StatusAt(env, store, views, trust, i).Complete? && StatusAt(env, store, views, trust, j).Complete?
    ensures var final := Runs(env, store, views, trust);
      && (forall acct :: acct in trust && Known(acct) ==>
            Exact(final, acct.code) &&
            |Rows(final.mappings, acct.code)| == AtLeastOne(|Rows(store.mappings, acct.code)|))
      && final.accounts == Runs(env, store, views[..i + 1], trust).accounts
      && Others(final.mappings) == Others(store.mappings)
  {
    var final := Runs(env, store, views, trust);
    NoneCreatedAfterComplete(env, store, views, trust, i, j);
    RunsEvolve(env, store, views, trust, j + 1);
    RunsEvolve(env, store, views, trust, 0);
    assert views[..0] == [];
    forall acct | acct in trust && Known(acct)
      ensures Exact(final, acct.code) && |Rows(final.mappings, acct.code)| == AtLeastOne(|Rows(store.mappings, acct.code)|)
    {
      RowsOfExact(store, final, acct.code);
    }
  }

  lemma RowsOfExact(store: Store, final: Store, code: string)
    requires Evolves(store, final) && Exact(final, code)
    ensures |Rows(final.mappings, code)| == AtLeastOne(|Rows(store.mappings, code)|)
  {
  }

  function AtLeastOne(n: nat): nat { if n == 0 then 1 else n }

  // ---- What a single complete run achieves -------------------------------------------------

  lemma InsertSparesOthers(env: Env, store: Store, acct: TrustAccount, id: int, code: string)
    requires code != acct.code
    ensures var store' := InsertCall(env, store, acct, id).0;
      store'.accounts == store.accounts && Rows(store'.mappings, code) == Rows(store.mappings, code)
  {
    RowsInserted(store.mappings, acct.code, id, Describe(acct), code);
  }

  lemma InsertSeeds(env: Env, store: Store, acct: TrustAccount, id: int)
    ensures var (store', ok) := InsertCall(env, store, acct, id);
      store'.accounts == store.accounts &&
      (ok ==> SeededRows(Rows(store.mappings, acct.code), Rows(store'.mappings, acct.code), id))
  {
    var after := InsertIfAbsent(store.mappings, acct.code, id, Describe(acct));
    RowsInserted(store.mappings, acct.code, id, Describe(acct), acct.code);
    assert SeededRows(Rows(store.mappings, acct.code), Rows(after, acct.code), id);
  }

  lemma UpdateSparesOthers(env: Env, store: Store, acct: TrustAccount, id: int, code: string)
    requires code != acct.code
    ensures var store' := UpdateCall(env, store, acct, id).0;
      store'.accounts == store.accounts && Rows(store'.mappings, code) == Rows(store.mappings, code)
  {
    RowsUpdated(store.mappings, acct.code, id, Describe(acct), code);
  }

  lemma CreateSparesOthers(env: Env, store: Store, acct: TrustAccount, other: string)
    requires acct.code != other
    ensures var store' := CreateCall(env, store, acct).0;
      store'.mappings == store.mappings && (Has(store'.accounts, other) <==> Has(store.accounts, other))
  {
    var made := NewAccount(store, acct);
    assert forall a :: a in store.accounts + [made] <==> a in store.accounts || a == made;
  }

  /** Seeding one account leaves the rows and the account of every other code alone. */
  lemma OtherCodeKept(env: Env, store: Store, existing: seq<GlAccount>, acct: TrustAccount, code: string)
    requires acct.code != code
    ensures var store' := SeedOne(env, store, existing, acct).0;
      Rows(store'.mappings, code) == Rows(store.mappings, code) && (Has(store'.accounts, code) <==> Has(store.accounts, code))
  {
    if Has(existing, acct.code) {
      var id := IdOf(existing, acct.code);
      InsertSparesOthers(env, store, acct, id, code);
      UpdateSparesOthers(env, InsertCall(env, store, acct, id).0, acct, id, code);
    } else if Known(acct) {
      CreateSparesOthers(env, store, acct, code);
      InsertSparesOthers(env, CreateCall(env, store, acct).0, acct, FreshGlId(store.accounts), code);
    }
  }

  /** An account that exists but was not listed stops the run; past all its known namesakes its rows stay. */
  lemma {:induction false} UnlistedKept(env: Env, store: Store, existing: seq<GlAccount>, trust: seq<TrustAccount>,
                                        created: nat, skipped: nat, code: string)
    requires !Has(existing, code) && Has(store.accounts, code)
    ensures var (final, status) := SeedLoop(env, store, existing, trust, created, skipped);
      status.Complete? ==>
        Rows(final.mappings, code) == Rows(store.mappings, code) &&
        forall acct :: acct in trust && Known(acct) ==> acct.code != code
    decreases |trust|
  {
    if trust != [] {
      var acct, rest := trust[0], trust[1..];
      assert trust == [acct] + rest;
      var (next, progress) := SeedOne(env, store, existing, acct);
      if acct.code != code { OtherCodeKept(env, store, existing, acct, code); }
      if progress != Stop {
        UnlistedKept(env, next, existing, rest, if progress == Created then created + 1 else created,
                     if progress == Skipped then skipped + 1 else skipped, code);
      }
    }
  }

  lemma {:induction false} FreshIdGrows(accounts: seq<GlAccount>, more: seq<GlAccount>)
    ensures FreshGlId(accounts) <= FreshGlId(accounts + more)
  {
    if more == [] {
      assert accounts + more == accounts;
    } else {
      FreshIdGrows(accounts, more[..|more| - 1]);
      assert (accounts + more)[..|accounts + more| - 1] == accounts + more[..|more| - 1];
    }
  }

  lemma {:induction false} IdOfAdded(accounts: seq<GlAccount>, account: GlAccount)
    requires !Has(accounts, account.code)
    ensures Has(accounts + [account], account.code) && IdOf(accounts + [account], account.code) == account.id
  {
    var added := accounts + [account];
    assert added[|accounts|] in added;
    if accounts != [] {
      assert accounts[0] in accounts && forall a :: a in accounts[1..] ==> a in accounts;
      assert added[0] == accounts[0] && added[1..] == accounts[1..] + [account];
      IdOfAdded(accounts[1..], account);
    }
  }

  /** The rows of a code after the run that created its account. */
  predicate SeededRows(before: seq<Mapping>, after: seq<Mapping>, id: int) {
    if before == [] then |after| == 1 && after[0].glId == id else after == before
  }

  /** Creating a missing account: its id is new, and is written only where there was no row. */
  lemma CreatedRows(env: Env, store: Store, existing: seq<GlAccount>, acct: TrustAccount)
    requires !Has(existing, acct.code) && !Has(store.accounts, acct.code) && Known(acct)
    ensures var (next, progress) := SeedOne(env, store, existing, acct);
      progress != Stop ==>
        && store.accounts <= next.accounts && Has(next.accounts, acct.code)
        && IdOf(next.accounts, acct.code) == FreshGlId(store.accounts)
        && SeededRows(Rows(store.mappings, acct.code), Rows(next.mappings, acct.code), FreshGlId(store.accounts))
  {
    var id := FreshGlId(store.accounts);
    IdOfAdded(store.accounts, NewAccount(store, acct));
    InsertSeeds(env, CreateCall(env, store, acct).0, acct, id);
  }

  lemma {:induction false} LoopCreates(env: Env, store: Store, existing: seq<GlAccount>, trust: seq<TrustAccount>,
                                       created: nat, skipped: nat, acct: TrustAccount)
    requires existing <= store.accounts && !Has(existing, acct.code) && !Has(store.accounts, acct.code)
    requires acct in trust && Known(acct)
    ensures var (final, status) := SeedLoop(env, store, existing, trust, created, skipped);
      status.Complete? ==>
        && Has(final.accounts, acct.code) && IdOf(final.accounts, acct.code) >= FreshGlId(store.accounts)
        && SeededRows(Rows(store.mappings, acct.code), Rows(final.mappings, acct.code), IdOf(final.accounts, acct.code))
    decreases |trust|
  {
    var head, rest := trust[0], trust[1..];
    assert trust == [head] + rest;
    var (next, progress) := SeedOne(env, store, existing, head);
    var created' := if progress == Created then created + 1 else created;
    var skipped' := if progress == Skipped then skipped + 1 else skipped;
    SeedOneEvolves(env, store, existing, head);
    if progress != Stop {
      if head.code == acct.code && Known(head) {
        CreatedRows(env, store, existing, head);
        UnlistedKept(env, next, existing, rest, created', skipped', acct.code);
        LoopEvolves(env, next, existing, rest, created', skipped');
        IdOfPrefix(next.accounts, SeedLoop(env, next, existing, rest, created', skipped').0.accounts, acct.code);
      } else {
        if head.code != acct.code { OtherCodeKept(env, store, existing, head, acct.code); }
        assert next.accounts == store.accounts + next.accounts[|store.accounts|..];
        FreshIdGrows(store.accounts, next.accounts[|store.accounts|..]);
        LoopCreates(env, next, existing, rest, created', skipped', acct);
      }
    }
  }

  /**
   One complete run makes the mapping of a known trust account exact iff it saw the account
   listed, or every row of its code already held the id the account has afterwards.
   */
  lemma OneRunExact(env: Env, store: Store, seen: nat, trust: seq<TrustAccount>, acct: TrustAccount)
    requires acct in trust && Known(acct) && SeedRun(env, store, seen, trust).1.Complete?
    ensures var final := SeedRun(env, store, seen, trust).0;
      && Has(final.accounts, acct.code)
      && (Exact(final, acct.code) <==>
            Has(Listed(store, seen), acct.code) ||
            AllHold(Rows(store.mappings, acct.code), IdOf(final.accounts, acct.code)))
      && (!Has(Listed(store, seen), acct.code) ==> IdOf(final.accounts, acct.code) >= FreshGlId(store.accounts))
  {
    var started, existing := store.(calls := store.calls + 3), Listed(store, seen);
    var final := SeedLoop(env, started, existing, trust, 0, 0).0;
    assert SeedRun(env, store, seen, trust) == SeedLoop(env, started, existing, trust, 0, 0);
    if Has(existing, acct.code) {
      LoopEvolves(env, started, existing, trust, 0, 0);
    } else if Has(store.accounts, acct.code) {
      UnlistedKept(env, started, existing, trust, 0, 0, acct.code);
    } else {
      LoopCreates(env, started, existing, trust, 0, 0, acct);
      SeededExact(Rows(store.mappings, acct.code), Rows(final.mappings, acct.code), IdOf(final.accounts, acct.code));
    }
  }

  lemma SeededExact(before: seq<Mapping>, after: seq<Mapping>, id: int)
    requires SeededRows(before, after, id)
    ensures after != [] && (AllHold(after, id) <==> AllHold(before, id))
  {
    if before == [] { assert forall m :: m in after ==> m == after[0]; }
  }

  /** With rows older than any id still to be given out: iff it saw the account listed, or found no row of its code. */
  lemma OneRunExactIff(env: Env, store: Store, seen: nat, trust: seq<TrustAccount>, acct: TrustAccount)
    requires acct in trust && Known(acct) && SeedRun(env, store, seen, trust).1.Complete?
    requires forall m :: m in Rows(store.mappings, acct.code) ==> m.glId < FreshGlId(store.accounts)
    ensures Exact(SeedRun(env, store, seen, trust).0, acct.code) <==>
      Has(Listed(store, seen), acct.code) || Rows(store.mappings, acct.code) == []
  {
    OneRunExact(env, store, seen, trust, acct);
    var rows := Rows(store.mappings, acct.code);
    if rows != [] { assert rows[0] in rows; }
  }

  /** The failing side occurs: the smallest table with a row older than its account. */
  lemma StaleRowSurvivesFirstRun(env: Env)
    requires Reliable(env)
    ensures var trust := [TrustAccount("1100", "Bonds", "asset")];
      var store := Store([], [Mapping(TRUST_JOURNAL, "1100", 0, "")], 0);
      var (once, status) := SeedRun(env, store, 0, trust);
      status == Complete(1, 0) && !Exact(once, "1100")
  {
    var acct, row := TrustAccount("1100", "Bonds", "asset"), Mapping(TRUST_JOURNAL, "1100", 0, "");
    var store := Store([], [row], 0);
    assert [acct][1..] == [] && acct in [acct];
    RowsAppend([], row, "1100");
    assert [] + [row] == [row];
    assert [] + [GlAccount("1100", "Bonds", 1, 1)] == [GlAccount("1100", "Bonds", 1, 1)];
    var started := store.(calls := 3);
    var (next, progress) := SeedOne(env, started, [], acct);
    assert progress == Created && [acct][0] == acct;
    assert SeedLoop(env, next, [], [], 1, 0) == (next, Complete(1, 0));
    assert SeedLoop(env, started, [], [acct], 0, 0) == (next, Complete(1, 0));
    assert Listed(store, 0) == [];
    assert SeedRun(env, store, 0, [acct]) == (next, Complete(1, 0));
    OneRunExactIff(env, store, 0, [acct], acct);
  }

  // ---- The map step 6 builds from the table ---------------------------------------------

  /** Later rows win. */
  function GlMap(rows: seq<Mapping>): map<string, int> {
    if rows == [] then map[]
    else GlMap(rows[..|rows| - 1])[rows[|rows| - 1].code := rows[|rows| - 1].glId]
  }

  method BuildGlMap(rows: seq<Mapping>) returns (glMap: map<string, int>)
    ensures glMap == GlMap(rows)
  {
    glMap := map[];
    for i := 0 to |rows|
      invariant glMap == GlMap(rows[..i])
    {
      assert rows[..i + 1][..i] == rows[..i];
      glMap := glMap[rows[i].code := rows[i].glId];
    }
    assert rows[..|rows|] == rows;
  }

  lemma {:induction false} MapHoldsId(rows: seq<Mapping>, code: string, id: int)
    requires forall m :: m in rows && m.code == code ==> m.glId == id
    ensures (exists m :: m in rows && m.code == code) ==> code in GlMap(rows) && GlMap(rows)[code] == id
    ensures code in GlMap(rows) ==> GlMap(rows)[code] == id
  {
    if rows != [] {
      var init, last := rows[..|rows| - 1], rows[|rows| - 1];
      assert rows == init + [last];
      MapHoldsId(init, code, id);
    }
  }

  /** Whatever order the rows come back in, an exact code maps to the id of its account. */
  lemma ExactIsMapped(store: Store, rows: seq<Mapping>, code: string)
    requires Exact(store, code)
    requires forall m :: m in rows <==> m in store.mappings && m.kind == TRUST_JOURNAL
    ensures code in GlMap(rows) && GlMap(rows)[code] == IdOf(store.accounts, code)
  {
    var found := Rows(store.mappings, code)[0];
    assert found in Rows(store.mappings, code);
    assert found in rows && found.code == code;
    forall m | m in rows && m.code == code ensures m.glId == IdOf(store.accounts, code) {
      assert m in Rows(store.mappings, code);
    }
    MapHoldsId(rows, code, IdOf(store.accounts, code));
  }
}
