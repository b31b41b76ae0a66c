/** The two routes together: on a seeded ledger the balance correction has no exception. */
module SeededCorrection {
  import opened GlSeeding
  import opened LostInPass
  import opened LostReplies
  import opened RemoteGl
  import opened Resync
  import opened ResyncGuarantees
  import opened Reversals

  /** Remote ids are positive and belong to one account each. */
  ghost predicate ProperIds(accounts: seq<GlAccount>) {
    && (forall a :: a in accounts ==> a.id > 0)
    && (forall a, b :: a in accounts && b in accounts && a.id == b.id ==> a == b)
  }

  /** What a seeded ledger is: both codes mapped exactly, by the rows the route reads. */
  ghost predicate Seeded(store: Store, rows: seq<Mapping>) {
    && ProperIds(store.accounts) && Exact(store, BOND_ACCOUNT) && Exact(store, CORPUS_ACCOUNT)
    && (forall m :: m in rows <==> m in store.mappings && m.kind == TRUST_JOURNAL)
  }

  /** Its two accounts are mapped, and are two. */
  lemma SeededAccounts(store: Store, rows: seq<Mapping>)
    requires Seeded(store, rows)
    ensures var glMap := GlMap(rows);
      && Mapped(glMap) && MappedId(glMap, BOND_ACCOUNT) == IdOf(store.accounts, BOND_ACCOUNT)
      && MappedId(glMap, BOND_ACCOUNT) != MappedId(glMap, CORPUS_ACCOUNT)
  {
    ExactIsMapped(store, rows, BOND_ACCOUNT);
    ExactIsMapped(store, rows, CORPUS_ACCOUNT);
    assert BOND_ACCOUNT[0] != CORPUS_ACCOUNT[0];
    assert IdOf(store.accounts, BOND_ACCOUNT) != IdOf(store.accounts, CORPUS_ACCOUNT);
  }

  /**
   Once both codes are seeded, step 6 never stops for a missing mapping. As long as no reply is
   lost, a completed one leaves the bond account at most 1 below its expected value and exact after
   a correction, whichever calls fail.
   */
  lemma SeededCorrectionMeetsExpected(store: Store, rows: seq<Mapping>, env: Env, gl: Gl, expected: real)
    requires Seeded(store, rows) && LossFree(env) && Coherent(gl)
    ensures var (gl', outcome) := CorrectBalance(env, gl, GlMap(rows), expected);
      var balance := Net(gl'.lines, Account(IdOf(store.accounts, BOND_ACCOUNT)));
      && !outcome.MissingMapping?
      && (Completed(outcome) ==> balance >= expected - 1.0)
      && (outcome.Corrected? ==> balance == expected)
  {
    SeededAccounts(store, rows);
    FailuresAreHarmless(env, gl, GlMap(rows), expected);
  }

  /** Step 6 on the rows of its mapping query. */
  method Step6OnRows(remote: Fineract, rows: seq<Mapping>, expected: real) returns (outcome: Outcome)
    modifies remote
    ensures (remote.State(), outcome) == CorrectBalance(remote.env, old(remote.State()), GlMap(rows), expected)
  {
    var glMap := BuildGlMap(rows);
    outcome := Step6(remote, glMap, expected);
  }

  /**
   Under every reply pattern, lost replies included, it does so exactly when the account bears its
   losses for the ledger and for a cached listing, and a correction is exact exactly when both agree.
   */
  lemma SeededWhateverReplies(store: Store, rows: seq<Mapping>, env: Env, gl: Gl, expected: real)
    requires Seeded(store, rows) && KnownCache(gl)
    ensures var bondInv := IdOf(store.accounts, BOND_ACCOUNT);
      && ((forall e :: SameLedger(env, e) ==> FloorIfCompleted(e, gl, GlMap(rows), expected)) <==>
            && Bears(env, gl.lines, gl.lines, bondInv, expected)
            && (gl.cache.Some? ==> Bears(env, gl.lines, gl.cache.value, bondInv, expected)))
      && ((forall e :: SameLedger(env, e) ==> ExactIfCorrected(e, gl, GlMap(rows), expected)) <==>
            && Agrees(gl.lines, gl.lines, bondInv, expected)
            && (gl.cache.Some? ==> Agrees(gl.lines, gl.cache.value, bondInv, expected)))
  {
    SeededAccounts(store, rows);
    FloorWhateverRepliesIff(env, gl, GlMap(rows), expected);
    ExactWhateverRepliesIff(env, gl, GlMap(rows), expected);
  }

  /** And a whole pass, begun with nothing or an up-to-date listing cached, under the conditions on what step 2 can leave. */
  lemma SeededPass(store: Store, rows: seq<Mapping>, env: Env, gl: Gl, expected: real)
    requires Seeded(store, rows) && GoodNotes(env) && Coherent(gl)
    ensures var bondInv := IdOf(store.accounts, BOND_ACCOUNT);
      && ((forall e :: SameLedger(env, e) ==> RunFloor(e, gl, GlMap(rows), expected)) <==>
            forall gone, shown :: CanShow(gl.lines, gone, shown) ==>
              BearsAfter(env, gl.lines, gone, shown, bondInv, expected))
      && ((forall e :: SameLedger(env, e) ==> RunExact(e, gl, GlMap(rows), expected)) <==>
            forall gone, shown :: CanShow(gl.lines, gone, shown) ==>
              AgreesAfter(env, gl.lines, gone, shown, bondInv, expected))
  {
    SeededAccounts(store, rows);
    RunFloorIff(env, gl, GlMap(rows), expected);
    RunExactIff(env, gl, GlMap(rows), expected);
  }
}
