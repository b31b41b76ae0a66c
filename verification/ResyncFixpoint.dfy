/** When a second pass over steps 2 and 6 changes nothing, told from the ledger before the first. */
module ResyncFixpoint {
  import opened CircuitBreaker
  import opened Comments
  import opened DoubleEntry
  import opened LedgerSweeps
  import opened RemoteGl
  import opened Resync
  import opened ResyncGuarantees
  import opened ResyncRuns
  import opened Reversals
  import opened Seqs
  import opened Wrappers

  // ---- What a pass finds and does, when every call that is sent is answered --------------

  /** The calls of the loop over the old corrections, after step 2. */
  function CorrectionPicksLeft(lines: seq<Line>): seq<nat> {
    Spare(Picks(lines, IsCorrection), Step2Reached(lines))
  }

  predicate OutAfterStep2(env: Env, lines: seq<Line>, account: int, expected: real) {
    Abs(expected - Without(env, lines, Step2Reached(lines), account)) > 1.0
  }

  /** Step 6 gets to its loop: it has its accounts, a listing, and a balance out of tolerance. */
  ghost predicate EntersLoop(env: Env, lines: seq<Line>, glMap: map<string, int>, expected: real) {
    && Mapped(glMap) && !Trips(lines, StalePicks(lines))
    && OutAfterStep2(env, lines, MappedId(glMap, BOND_ACCOUNT), expected)
  }

  /** All transactions the pass reverses. */
  ghost function Gone(env: Env, lines: seq<Line>, glMap: map<string, int>, expected: real): set<nat> {
    Step2Reached(lines) +
      if EntersLoop(env, lines, glMap, expected) then Reached(lines, CorrectionPicksLeft(lines)) else {}
  }

  /** What the account shows without them. */
  ghost function Left(env: Env, lines: seq<Line>, glMap: map<string, int>, expected: real): real {
    Without(env, lines, Gone(env, lines, glMap, expected), MappedId(glMap, BOND_ACCOUNT))
  }

  ghost function Missing(env: Env, lines: seq<Line>, glMap: map<string, int>, expected: real): real {
    expected - Left(env, lines, glMap, expected)
  }

  ghost predicate Posts(env: Env, lines: seq<Line>, glMap: map<string, int>, expected: real) {
    && EntersLoop(env, lines, glMap, expected) && !Trips(lines, CorrectionPicksLeft(lines))
    && Missing(env, lines, glMap, expected) > 1.0
  }

  lemma SparedPicks(lines: seq<Line>, chosen: string -> bool, gone: set<nat>, picks: seq<nat>)
    requires picks == Spare(Picks(lines, chosen), gone)
    ensures Elements(picks) == Targets(lines, chosen) - gone && Below(lines, picks)
  {
    SpareElements(Picks(lines, chosen), gone);
    PicksAreTargets(lines, chosen);
    TargetsBelow(lines, chosen);
    forall t | t in picks ensures t < FreshId(lines) {
      assert t in Elements(picks);
    }
  }

  /** What reversals leave to step 6. */
  lemma CorrectionsAfter(env: Env, lines: seq<Line>, log: seq<nat>, picks: seq<nat>)
    requires GoodNotes(env) && Legit(lines, log) && picks == Spare(Picks(lines, IsCorrection), Elements(log))
    ensures var after := Undo(env, lines, log);
      && Picks(after, IsCorrection) == picks
      && CorrectionsReached(after) == Reached(lines, picks) && (CorrectionsTrip(after) <==> Trips(lines, picks))
  {
    NotesAreKept(env);
    UndoPicks(env, lines, log, IsCorrection);
    SparedPicks(lines, IsCorrection, Elements(log), picks);
    ReachedAfter(env, lines, log, picks);
  }

  /** The transactions a pass through the loop of step 6 reverses. */
  function LoopingLog(env: Env, gl: Gl): seq<nat> {
    Step2Log(env, gl) + CorrectionLog(env, LookupCall(env, CleanUpStale(env, gl).0).0)
  }

  /** With the circuit breaker open and nothing cached step 6 does nothing. */
  lemma Step6Rejected(env: Env, gl: Gl, glMap: map<string, int>, expected: real)
    requires Reliable(env) && gl.failures >= 3 && gl.cache == None
    ensures CorrectBalance(env, gl, glMap, expected).0.lines == gl.lines
    ensures Coherent(CorrectBalance(env, gl, glMap, expected).0)
  {
  }

  /** The loop of step 6 continues earlier reversals. */
  lemma LoopContinues(env: Env, gl: Gl, lines: seq<Line>, log: seq<nat>, picks: seq<nat>)
    requires Reliable(env) && GoodNotes(env) && Coherent(gl) && Ready(gl) && Legit(lines, log)
    requires gl.lines == Undo(env, lines, log) && picks == Spare(Picks(lines, IsCorrection), Elements(log))
    ensures var all := log + CorrectionLog(env, gl);
      && Legit(lines, all) && Elements(all) == Elements(log) + Reached(lines, picks)
      && AfterLoop(env, gl).lines == Undo(env, lines, all)
  {
    CorrectionsAfter(env, lines, log, picks);
    LoopComes(env, gl);
    SparedPicks(lines, IsCorrection, Elements(log), picks);
    ReachedBelow(lines, picks, CorrectionLog(env, gl));
    LegitConcat(env, lines, log, CorrectionLog(env, gl));
    UndoConcat(env, lines, log, CorrectionLog(env, gl));
  }

  lemma ReachedBelow(lines: seq<Line>, picks: seq<nat>, log: seq<nat>)
    requires Below(lines, picks) && Elements(log) == Reached(lines, picks)
    ensures Below(lines, log)
  {
    ReachedSome(Reversible(lines, Elements(picks)), picks);
    forall t | t in log ensures t < FreshId(lines) {
      assert t in Elements(log) && t in Elements(picks);
    }
  }

  /** What the pass leaves, when step 6 gets to its loop. */
  lemma LoopingPass(env: Env, gl: Gl, glMap: map<string, int>, expected: real)
    requires Reliable(env) && GoodNotes(env) && Sound(env, gl.lines) && Coherent(gl) && Ready(gl)
    requires EntersLoop(env, gl.lines, glMap, expected)
    ensures PassLeaves(env, gl, glMap, expected, LoopingLog(env, gl))
  {
    var log, swept, bondInv := Step2Log(env, gl), CleanUpStale(env, gl).0, MappedId(glMap, BOND_ACCOUNT);
    Step2Undoes(env, gl);
    Step2Complete(env, gl);
    UndoNet(env, gl.lines, log, Account(bondInv));
    LoopingStep6(env, LookupCall(env, swept).0, gl.lines, log, CorrectionPicksLeft(gl.lines), bondInv,
                 MappedId(glMap, CORPUS_ACCOUNT), expected);
  }

  lemma LoopingStep6(env: Env, gl: Gl, lines: seq<Line>, log: seq<nat>, picks: seq<nat>,
                     bondInv: int, corpus: int, expected: real)
    requires Reliable(env) && GoodNotes(env) && Coherent(gl) && Ready(gl) && OutOfTolerance(gl.lines, bondInv, expected)
    requires Legit(lines, log) && gl.lines == Undo(env, lines, log)
    requires picks == Spare(Picks(lines, IsCorrection), Elements(log))
    ensures var (gl', outcome), all := CorrectAccount(env, gl, bondInv, corpus, expected), log + CorrectionLog(env, gl);
      var gone := Elements(log) + Reached(lines, picks);
      var missing := expected - Without(env, lines, gone, bondInv);
      && Legit(lines, all) && Elements(all) == gone && Coherent(gl')
      && gl'.lines == if !Trips(lines, picks) && missing > 1.0
           then AfterPost(Undo(env, lines, all), bondInv, corpus, missing, CORRECTION) else Undo(env, lines, all)
  {
    var all := log + CorrectionLog(env, gl);
    CorrectionsAfter(env, lines, log, picks);
    LoopContinues(env, gl, lines, log, picks);
    MeasuredLoop(env, gl, lines, all, bondInv);
    Step6Complete(env, gl, bondInv, corpus, expected);
  }

  lemma MeasuredLoop(env: Env, gl: Gl, lines: seq<Line>, all: seq<nat>, account: int)
    requires Reliable(env) && Coherent(gl) && Ready(gl) && Legit(lines, all)
    requires AfterLoop(env, gl).lines == Undo(env, lines, all)
    ensures WithoutCorrections(env, gl.lines, account) == Without(env, lines, Elements(all), account)
  {
    LoopNet(env, gl, account);
    UndoNet(env, lines, all, Account(account));
  }

  function PerhapsPosted(lines: seq<Line>, posts: bool, debit: int, credit: int, amount: real): seq<Line> {
    if posts then AfterPost(lines, debit, credit, amount, CORRECTION) else lines
  }

  /** Some transactions are reversed, and perhaps a correction is posted. */
  ghost predicate Leaves(env: Env, lines: seq<Line>, once: seq<Line>, log: seq<nat>, gone: set<nat>,
                         posts: bool, debit: int, credit: int, missing: real) {
    && Legit(lines, log) && Elements(log) == gone
    && once == PerhapsPosted(Undo(env, lines, log), posts, debit, credit, missing)
  }

  /** The ledger after the pass, told from the ledger before. */
  ghost predicate PassLeaves(env: Env, gl: Gl, glMap: map<string, int>, expected: real, log: seq<nat>) {
    var once := Run(env, gl, glMap, expected).0;
    && Coherent(once)
    && Leaves(env, gl.lines, once.lines, log, Gone(env, gl.lines, glMap, expected), Posts(env, gl.lines, glMap, expected),
              MappedId(glMap, BOND_ACCOUNT), MappedId(glMap, CORPUS_ACCOUNT), Missing(env, gl.lines, glMap, expected))
  }

  lemma PlainPass(env: Env, gl: Gl, glMap: map<string, int>, expected: real, log: seq<nat>)
    requires !EntersLoop(env, gl.lines, glMap, expected) && Legit(gl.lines, log) && Elements(log) == Step2Reached(gl.lines)
    requires var once := Run(env, gl, glMap, expected).0; Coherent(once) && once.lines == Undo(env, gl.lines, log)
    ensures PassLeaves(env, gl, glMap, expected, log)
  {
    assert Gone(env, gl.lines, glMap, expected) == Step2Reached(gl.lines);
  }

  lemma RejectedPass(env: Env, gl: Gl, glMap: map<string, int>, expected: real)
    requires Reliable(env) && GoodNotes(env) && Sound(env, gl.lines) && Coherent(gl) && Ready(gl)
    requires Trips(gl.lines, StalePicks(gl.lines))
    ensures var once := Run(env, gl, glMap, expected).0;
      Coherent(once) && once.lines == Undo(env, gl.lines, Step2Log(env, gl))
  {
    Step2Undoes(env, gl);
    Step2Complete(env, gl);
    Step6Rejected(env, CleanUpStale(env, gl).0, glMap, expected);
  }

  lemma WithinPass(env: Env, gl: Gl, glMap: map<string, int>, expected: real)
    requires Reliable(env) && GoodNotes(env) && Sound(env, gl.lines) && Coherent(gl) && Ready(gl)
    requires !Trips(gl.lines, StalePicks(gl.lines))
    requires Mapped(glMap) ==> !OutAfterStep2(env, gl.lines, MappedId(glMap, BOND_ACCOUNT), expected)
    ensures var once := Run(env, gl, glMap, expected).0;
      Coherent(once) && once.lines == Undo(env, gl.lines, Step2Log(env, gl))
  {
    Step2Undoes(env, gl);
    Step2Complete(env, gl);
    UndoNet(env, gl.lines, Step2Log(env, gl), Account(MappedId(glMap, BOND_ACCOUNT)));
    ContentStep6(env, CleanUpStale(env, gl).0, glMap, expected);
  }

  lemma ContentStep6(env: Env, gl: Gl, glMap: map<string, int>, expected: real)
    requires Reliable(env) && Coherent(gl) && Ready(gl)
    requires Mapped(glMap) ==> !OutOfTolerance(gl.lines, MappedId(glMap, BOND_ACCOUNT), expected)
    ensures var gl' := CorrectBalance(env, gl, glMap, expected).0; Coherent(gl') && gl'.lines == gl.lines
  {
    if Mapped(glMap) {
      Step6Complete(env, LookupCall(env, gl).0, MappedId(glMap, BOND_ACCOUNT), MappedId(glMap, CORPUS_ACCOUNT), expected);
    }
  }

  lemma Pass(env: Env, gl: Gl, glMap: map<string, int>, expected: real) returns (log: seq<nat>)
    requires Reliable(env) && GoodNotes(env) && Sound(env, gl.lines) && Coherent(gl) && Ready(gl)
    ensures PassLeaves(env, gl, glMap, expected, log)
  {
    if EntersLoop(env, gl.lines, glMap, expected) {
      LoopingPass(env, gl, glMap, expected);
      log := LoopingLog(env, gl);
    } else {
      log := Step2Log(env, gl);
      Step2Undoes(env, gl);
      Step2Complete(env, gl);
      if Trips(gl.lines, StalePicks(gl.lines)) {
        RejectedPass(env, gl, glMap, expected);
      } else {
        WithinPass(env, gl, glMap, expected);
      }
      PlainPass(env, gl, glMap, expected, log);
    }
  }

  // ---- A posted correction -------------------------------------------------------------------

  lemma PostedStatus(lines: seq<Line>, debit: int, credit: int, amount: real, t: nat)
    ensures var posted := AfterPost(lines, debit, credit, amount, CORRECTION);
      && (Active(posted, t) <==> t == FreshId(lines) || Active(lines, t))
      && (AlreadyReversed(posted, t) <==> AlreadyReversed(lines, t))
      && (Active(posted, t) ==> CommentOf(posted, t) == if t == FreshId(lines) then CORRECTION else CommentOf(lines, t))
  {
    var id := FreshId(lines);
    var d, c := Line(id, debit, true, amount, CORRECTION, false), Line(id, credit, false, amount, CORRECTION, false);
    var added := [d, c];
    assert d in added && forall l :: l in lines + added <==> l in lines || l == d || l == c;
    FirstActiveConcat(lines, added, t);
    CorrectionTrimmed();
    if t != id { assert FirstActive(added, t) == []; } else { assert FirstActive(lines, t) == []; }
  }

  lemma PostKeepsSound(env: Env, lines: seq<Line>, debit: int, credit: int, amount: real)
    requires GoodNotes(env) && Sound(env, lines)
    ensures Sound(env, AfterPost(lines, debit, credit, amount, CORRECTION))
  {
    var posted := AfterPost(lines, debit, credit, amount, CORRECTION);
    NotesAreKept(env);
    CorrectionIsKept();
    CorrectionTrimmed();
    forall t ensures !(Active(posted, t) && AlreadyReversed(posted, t)) {
      PostedStatus(lines, debit, credit, amount, t);
    }
    forall l, t | l in posted && Trim(l.comment) == env.note(t) ensures AlreadyReversed(posted, t) {
      PostedStatus(lines, debit, credit, amount, t);
      assert l in lines || l.comment == CORRECTION;
    }
  }

  /** The only correction shares its comment with nothing. */
  lemma PostedShares(lines: seq<Line>, debit: int, credit: int, amount: real)
    requires Targets(lines, IsCorrection) == {}
    ensures Covered(AfterPost(lines, debit, credit, amount, CORRECTION), {}) <==> Covered(lines, {})
  {
    var posted := AfterPost(lines, debit, credit, amount, CORRECTION);
    forall t, u ensures Shares(posted, t, u) <==> Shares(lines, t, u) {
      PostedSharesPair(lines, debit, credit, amount, t, u);
    }
  }

  lemma PostedSharesPair(lines: seq<Line>, debit: int, credit: int, amount: real, t: nat, u: nat)
    requires Targets(lines, IsCorrection) == {}
    ensures Shares(AfterPost(lines, debit, credit, amount, CORRECTION), t, u) <==> Shares(lines, t, u)
  {
    PostedStatus(lines, debit, credit, amount, t);
    PostedStatus(lines, debit, credit, amount, u);
    NotCorrection(lines, t);
    NotCorrection(lines, u);
  }

  lemma NotCorrection(lines: seq<Line>, t: nat)
    requires Targets(lines, IsCorrection) == {}
    ensures Active(lines, t) ==> t < FreshId(lines) && CommentOf(lines, t) != CORRECTION
  {
    if Active(lines, t) {
      var first := FirstActive(lines, t)[0];
      CorrectionIsKept();
      CorrectionTrimmed();
      NonePickedIff(lines, IsCorrection);
      assert !Picked(first, IsCorrection);
    }
  }

  // ---- The ledger after the first pass -----------------------------------------------------

  /** A posting comes only when no old correction is left. */
  lemma NoneLeftToPost(env: Env, lines: seq<Line>, log: seq<nat>, gone: set<nat>, picks: seq<nat>)
    requires GoodNotes(env) && Sound(env, lines) && picks == Spare(Picks(lines, IsCorrection), gone)
    requires !Trips(lines, picks) && Elements(log) == gone + Reached(lines, picks)
    ensures Targets(Undo(env, lines, log), IsCorrection) == {}
  {
    NotesAreKept(env);
    UndoTargets(env, lines, log, IsCorrection);
    UntrippedReachesAll(env, lines, gone, picks);
  }

  lemma UntrippedReachesAll(env: Env, lines: seq<Line>, gone: set<nat>, picks: seq<nat>)
    requires Sound(env, lines) && picks == Spare(Picks(lines, IsCorrection), gone) && !Trips(lines, picks)
    ensures Reached(lines, picks) == Elements(picks) == Targets(lines, IsCorrection) - gone
  {
    SoundTargets(env, lines, IsCorrection);
    SparedPicks(lines, IsCorrection, gone, picks);
    assert Reversible(lines, Elements(picks)) == Elements(picks) == Elements(picks) * Elements(picks);
    BlockedOpens(Elements(picks), picks);
    ReachesAllIff(Elements(picks), picks);
  }

  /** Which stale transactions are left. */
  lemma StaleLeftIff(env: Env, lines: seq<Line>, glMap: map<string, int>, expected: real)
    requires Sound(env, lines)
    ensures Targets(lines, IsStale) - Gone(env, lines, glMap, expected) == {} <==> !CutShort(lines, StalePicks(lines))
  {
    var picks := StalePicks(lines);
    ExposedAre(env, lines);
    CompleteIff(env, lines);
    ReachedSome(Elements(picks), picks);
    BlockedOpens(Elements(picks), picks);
    NothingOver(Targets(lines, IsStale), Elements(Duplicates(lines)), Reached(lines, picks));
    assert !Trips(lines, picks) ==> Targets(lines, IsStale) - Step2Reached(lines) == {};
    NoneOver(Targets(lines, IsStale), Step2Reached(lines));
    NoneOver(Targets(lines, IsStale), Gone(env, lines, glMap, expected));
  }

  /**
   The first pass leaves a sound ledger: something stale is in it iff the sweep was cut short, and a
   comment is shared in it iff two transactions the pass spared share one.
   */
  lemma FirstPass(env: Env, gl: Gl, glMap: map<string, int>, expected: real)
    requires Reliable(env) && GoodNotes(env) && Sound(env, gl.lines) && Coherent(gl) && Ready(gl)
    ensures var once := Run(env, gl, glMap, expected).0;
      && Sound(env, once.lines) && Coherent(once)
      && (Targets(once.lines, IsStale) == {} <==> !CutShort(gl.lines, StalePicks(gl.lines)))
      && (Covered(once.lines, {}) <==> Covered(gl.lines, Gone(env, gl.lines, glMap, expected)))
  {
    var log := Pass(env, gl, glMap, expected);
    StaleLeftIff(env, gl.lines, glMap, expected);
    if Posts(env, gl.lines, glMap, expected) { NoneStands(env, gl, glMap, expected, log); }
    PassTidy(env, gl, glMap, expected, log);
  }

  lemma PassTidy(env: Env, gl: Gl, glMap: map<string, int>, expected: real, log: seq<nat>)
    requires GoodNotes(env) && Sound(env, gl.lines) && PassLeaves(env, gl, glMap, expected, log)
    requires Posts(env, gl.lines, glMap, expected) ==> Targets(Undo(env, gl.lines, log), IsCorrection) == {}
    ensures var lines := Run(env, gl, glMap, expected).0.lines;
      && Sound(env, lines) && Targets(lines, IsStale) == Targets(gl.lines, IsStale) - Gone(env, gl.lines, glMap, expected)
      && (Covered(lines, {}) <==> Covered(gl.lines, Gone(env, gl.lines, glMap, expected)))
  {
    TidyAfter(env, gl.lines, Run(env, gl, glMap, expected).0.lines, log, Gone(env, gl.lines, glMap, expected),
              Posts(env, gl.lines, glMap, expected), MappedId(glMap, BOND_ACCOUNT), MappedId(glMap, CORPUS_ACCOUNT),
              Missing(env, gl.lines, glMap, expected));
  }

  lemma NoneStands(env: Env, gl: Gl, glMap: map<string, int>, expected: real, log: seq<nat>)
    requires GoodNotes(env) && Sound(env, gl.lines) && Posts(env, gl.lines, glMap, expected)
    requires Elements(log) == Gone(env, gl.lines, glMap, expected)
    ensures Targets(Undo(env, gl.lines, log), IsCorrection) == {}
  {
    NoneLeftToPost(env, gl.lines, log, Step2Reached(gl.lines), CorrectionPicksLeft(gl.lines));
  }

  lemma TidyAfter(env: Env, lines: seq<Line>, once: seq<Line>, log: seq<nat>, gone: set<nat>,
                  posts: bool, debit: int, credit: int, missing: real)
    requires GoodNotes(env) && Sound(env, lines)
    requires Leaves(env, lines, once, log, gone, posts, debit, credit, missing)
    requires posts ==> Targets(Undo(env, lines, log), IsCorrection) == {}
    ensures Sound(env, once) && Targets(once, IsStale) == Targets(lines, IsStale) - gone
    ensures Covered(once, {}) <==> Covered(lines, gone)
  {
    NotesAreKept(env);
    UndoSound(env, lines, log);
    UndoTargets(env, lines, log, IsStale);
    CoveredBy(env, lines, log);
    if posts { PostTidy(env, Undo(env, lines, log), debit, credit, missing); }
  }

  lemma CoveredBy(env: Env, lines: seq<Line>, log: seq<nat>)
    requires GoodNotes(env) && Sound(env, lines) && Legit(lines, log)
    ensures Covered(Undo(env, lines, log), {}) <==> Covered(lines, Elements(log))
  {
    UndoCovers(env, lines, log, {});
    assert {} + Elements(log) == Elements(log);
  }

  lemma PostTidy(env: Env, lines: seq<Line>, debit: int, credit: int, amount: real)
    requires GoodNotes(env) && Sound(env, lines) && Targets(lines, IsCorrection) == {}
    ensures var posted := AfterPost(lines, debit, credit, amount, CORRECTION);
      && Sound(env, posted) && Targets(posted, IsStale) == Targets(lines, IsStale)
      && (Covered(posted, {}) <==> Covered(lines, {}))
  {
    CorrectionIsKept();
    PostKeepsSound(env, lines, debit, credit, amount);
    PostedTargets(lines, debit, credit, amount, CORRECTION, IsStale);
    PostedShares(lines, debit, credit, amount);
  }

  /** On a ledger without stale transactions step 2 has nothing to do iff no comment is shared. */
  lemma TidyIdleIff(env: Env, lines: seq<Line>)
    requires Sound(env, lines) && Targets(lines, IsStale) == {}
    ensures Step2Exposed(lines) == {} <==> Covered(lines, {})
  {
    TidyNeverThrows(lines);
    ExposedAre(env, lines);
    if Covered(lines, {}) {
      NoDuplicates(lines);
    } else {
      DuplicatesCover(lines);
    }
  }

  lemma QuietStep2(env: Env, lines: seq<Line>)
    requires Sound(env, lines) && Step2Exposed(lines) == {}
    ensures StalePicks(lines) == [] && Step2Reached(lines) == {} && !Trips(lines, StalePicks(lines))
    ensures CorrectionPicksLeft(lines) == Picks(lines, IsCorrection)
  {
    ExposedAre(env, lines);
    NoElements(StalePicks(lines));
    SpareNothing(Picks(lines, IsCorrection));
  }

  lemma TidyNeverThrows(lines: seq<Line>)
    requires Targets(lines, IsStale) == {}
    ensures !Throws(lines)
  {
    forall t | t in Txns(lines) ensures CommentOf(lines, t) !in INHERITED {
      var first := FirstActive(lines, t)[0];
      NonePickedIff(lines, IsStale);
      assert !Picked(first, IsStale);
      InheritedNames(CommentOf(lines, t));
      assert TRUST_PREFIX[0] == 'T' && REVERSAL_PREFIX[0] == 'R';
    }
  }

  // ---- When a pass changes nothing ---------------------------------------------------------------

  /** What is reversed stays reversed, whatever the replies. */
  lemma ReversedStays(env: Env, gl: Gl, glMap: map<string, int>, expected: real, t: nat)
    requires AlreadyReversed(gl.lines, t)
    ensures AlreadyReversed(CorrectBalance(env, gl, glMap, expected).0.lines, t)
  {
    var bondInv, corpus := MappedId(glMap, BOND_ACCOUNT), MappedId(glMap, CORPUS_ACCOUNT);
    AccountStaysReversed(env, LookupCall(env, gl).0, bondInv, corpus, expected, t);
  }

  lemma AccountStaysReversed(env: Env, gl: Gl, bondInv: int, corpus: int, expected: real, t: nat)
    requires AlreadyReversed(gl.lines, t)
    ensures AlreadyReversed(CorrectAccount(env, gl, bondInv, corpus, expected).0.lines, t)
  {
    var reversed := (lines: seq<Line>) => AlreadyReversed(lines, t);
    forall lines, txn | reversed(lines) && CanReverse(lines, txn) ensures reversed(AfterReverse(env, lines, txn)) {
      ReversedAfter(env, lines, txn, t);
    }
    var (listed, entries) := ListCall(env, gl);
    if Reads(env, gl) {
      var looked := LookupCall(env, listed).0;
      WhereKeeps(env, looked, IsCorrection, entries.value, 0, reversed);
      PostingStaysReversed(env, ReverseWhere(env, looked, IsCorrection, entries.value, 0).0, bondInv, corpus, expected, t);
    }
  }

  lemma PostingStaysReversed(env: Env, gl: Gl, bondInv: int, corpus: int, expected: real, t: nat)
    requires AlreadyReversed(gl.lines, t)
    ensures AlreadyReversed(Recorrect(env, gl, bondInv, corpus, expected).0.lines, t)
  {
    RecorrectShape(env, gl, bondInv, corpus, expected);
    var lines := Recorrect(env, gl, bondInv, corpus, expected).0.lines;
    if lines != gl.lines {
      var amount :| lines == AfterPost(gl.lines, bondInv, corpus, amount, CORRECTION);
      PostedStatus(gl.lines, bondInv, corpus, amount, t);
    }
  }

  lemma Step2IdleIff(env: Env, gl: Gl)
    requires Reliable(env) && GoodNotes(env) && Sound(env, gl.lines) && Coherent(gl) && Ready(gl)
    ensures var swept := CleanUpStale(env, gl).0;
      if Step2Exposed(gl.lines) == {} then swept.lines == gl.lines && Coherent(swept) && Ready(swept)
      else exists t :: !AlreadyReversed(gl.lines, t) && AlreadyReversed(swept.lines, t)
  {
    var log, picks := Step2Log(env, gl), StalePicks(gl.lines);
    Step2Undoes(env, gl);
    Step2Complete(env, gl);
    ExposedAre(env, gl.lines);
    FirstIsReached(env, gl.lines);
    NoElements(log);
    NoElements(picks);
    if log != [] {
      assert log[0] in log;
      UndoStatus(env, gl.lines, log, log[0]);
    }
  }

  /** Step 6 finds the account within its tolerance, or neither short nor with an old correction standing. */
  predicate NothingToDo(lines: seq<Line>, account: int, expected: real) {
    !OutOfTolerance(lines, account, expected) ||
      (Targets(lines, IsCorrection) == {} && expected - Net(lines, Account(account)) <= 1.0)
  }

  lemma Step6IdleIff(env: Env, gl: Gl, bondInv: int, corpus: int, expected: real)
    requires Reliable(env) && Sound(env, gl.lines) && Coherent(gl) && Ready(gl)
    ensures CorrectAccount(env, gl, bondInv, corpus, expected).0.lines == gl.lines <==>
      NothingToDo(gl.lines, bondInv, expected)
  {
    Step6Complete(env, gl, bondInv, corpus, expected);
    if OutOfTolerance(gl.lines, bondInv, expected) {
      if Targets(gl.lines, IsCorrection) == {} {
        NothingToReverse(env, gl, bondInv);
      } else {
        SomethingReversed(env, gl, bondInv, corpus, expected);
      }
    }
  }

  lemma NothingToReverse(env: Env, gl: Gl, account: int)
    requires Reliable(env) && Coherent(gl) && Ready(gl) && Targets(gl.lines, IsCorrection) == {}
    ensures AfterLoop(env, gl).lines == gl.lines && !CorrectionsTrip(gl.lines)
    ensures WithoutCorrections(env, gl.lines, account) == Net(gl.lines, Account(account))
  {
    LoopComes(env, gl);
    LoopNet(env, gl, account);
    PicksAreTargets(gl.lines, IsCorrection);
    NoElements(Picks(gl.lines, IsCorrection));
    NoElements(CorrectionLog(env, gl));
  }

  lemma SomethingReversed(env: Env, gl: Gl, bondInv: int, corpus: int, expected: real)
    requires Reliable(env) && Sound(env, gl.lines) && Coherent(gl) && Ready(gl)
    requires OutOfTolerance(gl.lines, bondInv, expected) && Targets(gl.lines, IsCorrection) != {}
    ensures CorrectAccount(env, gl, bondInv, corpus, expected).0.lines != gl.lines
  {
    var t := FirstCorrectionGoes(env, gl);
    Step6Branches(env, gl, bondInv, corpus, expected);
    PostingStaysReversed(env, AfterLoop(env, gl), bondInv, corpus, expected, t);
  }

  lemma FirstCorrectionGoes(env: Env, gl: Gl) returns (t: nat)
    requires Reliable(env) && Sound(env, gl.lines) && Coherent(gl) && Ready(gl) && Targets(gl.lines, IsCorrection) != {}
    ensures !AlreadyReversed(gl.lines, t) && AlreadyReversed(AfterLoop(env, gl).lines, t)
  {
    var picks, log := Picks(gl.lines, IsCorrection), CorrectionLog(env, gl);
    PicksAreTargets(gl.lines, IsCorrection);
    NoElements(picks);
    SoundTargets(env, gl.lines, IsCorrection);
    t := picks[0];
    assert t in Elements(picks);
    ReachesFirst(CorrectionsExposed(gl.lines), picks);
    LoopComes(env, gl);
    assert t in Elements(log);
    TargetsBelow(gl.lines, IsCorrection);
    UndoStatus(env, gl.lines, log, t);
  }

  /** A pass leaves the ledger alone iff neither step has anything to do on it. */
  lemma PassIdleIff(env: Env, gl: Gl, glMap: map<string, int>, expected: real)
    requires Reliable(env) && GoodNotes(env) && Sound(env, gl.lines) && Coherent(gl) && Ready(gl)
    ensures var bondInv := MappedId(glMap, BOND_ACCOUNT);
      Run(env, gl, glMap, expected).0.lines == gl.lines <==>
        Step2Exposed(gl.lines) == {} && (Mapped(glMap) ==> NothingToDo(gl.lines, bondInv, expected))
  {
    var swept, bondInv := CleanUpStale(env, gl).0, MappedId(glMap, BOND_ACCOUNT);
    Step2IdleIff(env, gl);
    if Step2Exposed(gl.lines) != {} {
      var t :| !AlreadyReversed(gl.lines, t) && AlreadyReversed(swept.lines, t);
      ReversedStays(env, swept, glMap, expected, t);
    } else if Mapped(glMap) {
      Step6IdleIff(env, LookupCall(env, swept).0, bondInv, MappedId(glMap, CORPUS_ACCOUNT), expected);
    }
  }

  // ---- The second pass ------------------------------------------------------------------------

  /**
   Step 6 has left the account so that it finds nothing more to do: it posted between two accounts,
   or posted nothing and the account is not short and is too high only with no old correction left.
   */
  predicate Content(targets: set<nat>, gone: set<nat>, left: real, posts: bool, bondInv: int, corpus: int, expected: real) {
    if posts then bondInv != corpus else expected - left <= 1.0 && (left <= expected + 1.0 || targets <= gone)
  }

  ghost predicate Settles(env: Env, lines: seq<Line>, glMap: map<string, int>, expected: real) {
    Content(Targets(lines, IsCorrection), Gone(env, lines, glMap, expected), Left(env, lines, glMap, expected),
            Posts(env, lines, glMap, expected), MappedId(glMap, BOND_ACCOUNT), MappedId(glMap, CORPUS_ACCOUNT), expected)
  }

  lemma AccountAfter(env: Env, lines: seq<Line>, once: seq<Line>, log: seq<nat>, gone: set<nat>,
                     posts: bool, bondInv: int, corpus: int, expected: real, left: real, missing: real)
    requires GoodNotes(env) && left == Without(env, lines, gone, bondInv)
    requires Leaves(env, lines, once, log, gone, posts, bondInv, corpus, missing) && missing == expected - left
    ensures Net(once, Account(bondInv)) == if posts && bondInv != corpus then expected else left
    ensures !posts ==> Targets(once, IsCorrection) == Targets(lines, IsCorrection) - gone
  {
    var after := Undo(env, lines, log);
    NotesAreKept(env);
    UndoTargets(env, lines, log, IsCorrection);
    UndoNet(env, lines, log, Account(bondInv));
    NetAfterPost(after, bondInv, corpus, missing, CORRECTION, Account(bondInv));
  }

  lemma ContentIff(env: Env, lines: seq<Line>, once: seq<Line>, log: seq<nat>, gone: set<nat>,
                   posts: bool, bondInv: int, corpus: int, expected: real, left: real, missing: real)
    requires GoodNotes(env) && left == Without(env, lines, gone, bondInv)
    requires Leaves(env, lines, once, log, gone, posts, bondInv, corpus, missing) && missing == expected - left
    requires posts ==> expected - left > 1.0
    ensures Content(Targets(lines, IsCorrection), gone, left, posts, bondInv, corpus, expected) <==>
      NothingToDo(once, bondInv, expected)
  {
    AccountAfter(env, lines, once, log, gone, posts, bondInv, corpus, expected, left, missing);
    NoneOver(Targets(lines, IsCorrection), gone);
  }

  /** One step 6 out of tolerance, seen as a pass of its own. */
  lemma Step6Pass(env: Env, gl: Gl, bondInv: int, corpus: int, expected: real, posts: bool, missing: real)
    requires Reliable(env) && Coherent(gl) && Ready(gl) && OutOfTolerance(gl.lines, bondInv, expected)
    requires missing == Shortfall(env, gl.lines, bondInv, expected)
    requires posts == (!CorrectionsTrip(gl.lines) && missing > 1.0)
    ensures Leaves(env, gl.lines, CorrectAccount(env, gl, bondInv, corpus, expected).0.lines, CorrectionLog(env, gl),
                   CorrectionsReached(gl.lines), posts, bondInv, corpus, missing)
  {
    LoopComes(env, gl);
    Step6Complete(env, gl, bondInv, corpus, expected);
  }

  /** Run again on what it left, step 6 does nothing iff it was within its tolerance or left the account so. */
  lemma Step6Again(env: Env, gl: Gl, again: Gl, bondInv: int, corpus: int, expected: real)
    requires Reliable(env) && GoodNotes(env) && Sound(env, gl.lines) && Coherent(gl) && Ready(gl)
    requires Coherent(again) && Ready(again) && again.lines == CorrectAccount(env, gl, bondInv, corpus, expected).0.lines
    ensures CorrectAccount(env, again, bondInv, corpus, expected).0.lines == again.lines <==>
      !OutOfTolerance(gl.lines, bondInv, expected) ||
      Content(Targets(gl.lines, IsCorrection), CorrectionsReached(gl.lines), WithoutCorrections(env, gl.lines, bondInv),
              !CorrectionsTrip(gl.lines) && NeedsCorrection(env, gl.lines, bondInv, expected), bondInv, corpus, expected)
  {
    if OutOfTolerance(gl.lines, bondInv, expected) {
      AgainContent(env, gl, again, bondInv, corpus, expected,
                   !CorrectionsTrip(gl.lines) && NeedsCorrection(env, gl.lines, bondInv, expected),
                   WithoutCorrections(env, gl.lines, bondInv), Shortfall(env, gl.lines, bondInv, expected));
    } else {
      Step6Complete(env, gl, bondInv, corpus, expected);
      Step6IdleIff(env, again, bondInv, corpus, expected);
    }
  }

  lemma AgainContent(env: Env, gl: Gl, again: Gl, bondInv: int, corpus: int, expected: real,
                     posts: bool, n: real, missing: real)
    requires Reliable(env) && GoodNotes(env) && Sound(env, gl.lines) && Coherent(gl) && Ready(gl)
    requires Coherent(again) && Ready(again) && again.lines == CorrectAccount(env, gl, bondInv, corpus, expected).0.lines
    requires OutOfTolerance(gl.lines, bondInv, expected)
    requires n == WithoutCorrections(env, gl.lines, bondInv) && missing == Shortfall(env, gl.lines, bondInv, expected)
    requires posts == (!CorrectionsTrip(gl.lines) && missing > 1.0)
    ensures CorrectAccount(env, again, bondInv, corpus, expected).0.lines == again.lines <==>
      Content(Targets(gl.lines, IsCorrection), CorrectionsReached(gl.lines), n, posts, bondInv, corpus, expected)
  {
    var log := CorrectionLog(env, gl);
    Step6Pass(env, gl, bondInv, corpus, expected, posts, missing);
    AgainSound(env, gl, again.lines, log, posts, bondInv, corpus, missing);
    ContentIff(env, gl.lines, again.lines, log, CorrectionsReached(gl.lines), posts, bondInv, corpus, expected, n, missing);
    Step6IdleIff(env, again, bondInv, corpus, expected);
  }

  lemma AgainSound(env: Env, gl: Gl, lines: seq<Line>, log: seq<nat>, posts: bool, bondInv: int, corpus: int, missing: real)
    requires Reliable(env) && GoodNotes(env) && Sound(env, gl.lines) && Coherent(gl) && Ready(gl)
    requires log == CorrectionLog(env, gl) && (posts ==> !CorrectionsTrip(gl.lines))
    requires Leaves(env, gl.lines, lines, log, CorrectionsReached(gl.lines), posts, bondInv, corpus, missing)
    ensures Sound(env, lines)
  {
    LoopComes(env, gl);
    NoneAfterLoopIff(env, gl);
    TidyAfter(env, gl.lines, lines, log, CorrectionsReached(gl.lines), posts, bondInv, corpus, missing);
  }

  lemma SettlesIff(env: Env, gl: Gl, glMap: map<string, int>, expected: real)
    requires Reliable(env) && GoodNotes(env) && Sound(env, gl.lines) && Coherent(gl) && Ready(gl)
    ensures Settles(env, gl.lines, glMap, expected) <==>
      NothingToDo(Run(env, gl, glMap, expected).0.lines, MappedId(glMap, BOND_ACCOUNT), expected)
  {
    var log := Pass(env, gl, glMap, expected);
    ContentIff(env, gl.lines, Run(env, gl, glMap, expected).0.lines, log, Gone(env, gl.lines, glMap, expected),
               Posts(env, gl.lines, glMap, expected), MappedId(glMap, BOND_ACCOUNT), MappedId(glMap, CORPUS_ACCOUNT),
               expected, Left(env, gl.lines, glMap, expected), Missing(env, gl.lines, glMap, expected));
  }

  /**
   With every call that is sent answered, a second pass over steps 2 and 6, begun when the circuit
   breaker is at rest again, changes nothing exactly when: the stale sweep of the first was not cut
   short; grouping did not throw with two spared transactions sharing a comment; and, if both codes
   are mapped, step 6 settles: it posted between two accounts, or posted nothing and the account is
   not short and is too high only without any old correction left. All of it is read off the ledger
   before the first pass.
   */
  lemma SecondRunIdleIff(env: Env, gl: Gl, glMap: map<string, int>, expected: real)
    requires Reliable(env) && GoodNotes(env) && Sound(env, gl.lines) && Coherent(gl) && Ready(gl)
    ensures var again := Run(env, gl, glMap, expected).0.(failures := 0);
      Run(env, again, glMap, expected).0.lines == again.lines <==>
        && !CutShort(gl.lines, StalePicks(gl.lines))
        && !(Throws(gl.lines) && !Covered(gl.lines, Gone(env, gl.lines, glMap, expected)))
        && (Mapped(glMap) ==> Settles(env, gl.lines, glMap, expected))
  {
    var again := Run(env, gl, glMap, expected).0.(failures := 0);
    FirstPass(env, gl, glMap, expected);
    PassIdleIff(env, again, glMap, expected);
    SettlesIff(env, gl, glMap, expected);
    ExposedAre(env, again.lines);
    if Targets(again.lines, IsStale) == {} { TidyIdleIff(env, again.lines); }
    if !Throws(gl.lines) { DuplicatesCover(gl.lines); }
  }

  /**
   When no three refusals come in a row, neither in the stale sweep nor in the loop over the old
   corrections, one account behind both codes is the only thing that keeps step 6 from settling.
   */
  lemma SettlesUntripped(env: Env, lines: seq<Line>, glMap: map<string, int>, expected: real)
    requires Sound(env, lines) && Mapped(glMap)
    requires !Trips(lines, StalePicks(lines)) && !Trips(lines, CorrectionPicksLeft(lines))
    ensures Settles(env, lines, glMap, expected) <==>
      !(Posts(env, lines, glMap, expected) && MappedId(glMap, BOND_ACCOUNT) == MappedId(glMap, CORPUS_ACCOUNT))
  {
    var reached, gone := Step2Reached(lines), Gone(env, lines, glMap, expected);
    UntrippedReachesAll(env, lines, reached, CorrectionPicksLeft(lines));
    assert EntersLoop(env, lines, glMap, expected) ==> Targets(lines, IsCorrection) <= gone;
    assert !EntersLoop(env, lines, glMap, expected) ==> gone == reached;
  }

  // ---- The exceptions occur --------------------------------------------------------------------

  /** One account behind both codes, and an empty ledger: the second pass is not idle. */
  lemma OneAccountNeverSettles(env: Env)
    requires Reliable(env) && GoodNotes(env)
    ensures var glMap := map[BOND_ACCOUNT := 1, CORPUS_ACCOUNT := 1];
      var again := Run(env, Gl([], None, 0, 0), glMap, 100.0).0.(failures := 0);
      Run(env, again, glMap, 100.0).0.lines != again.lines
  {
    var glMap, gl := map[BOND_ACCOUNT := 1, CORPUS_ACCOUNT := 1], Gl([], None, 0, 0);
    assert MappedId(glMap, BOND_ACCOUNT) == 1 == MappedId(glMap, CORPUS_ACCOUNT);
    NothingOnEmpty(env, glMap);
    SecondRunIdleIff(env, gl, glMap, 100.0);
  }

  lemma NothingOnEmpty(env: Env, glMap: map<string, int>)
    requires Mapped(glMap)
    ensures Posts(env, [], glMap, 100.0)
  {
    assert Picks([], IsStale) == [] && Picks([], IsCorrection) == [];
    assert StalePicks([]) == [] && CorrectionPicksLeft([]) == [];
    assert !Trips([], []);
  }

  /** A comment that is an inherited name hides two duplicates from the first pass, and is gone in the second. */
  lemma InheritedNameHides(env: Env, a: Line, b: Line, c: Line)
    requires Reliable(env) && GoodNotes(env)
    requires a.comment == b.comment == "Trust JE 1" && c.comment == "constructor"
    requires a.txn == 0 && b.txn == 1 && c.txn == 2 && !a.reversed && !b.reversed && !c.reversed
    ensures var again := Run(env, Gl([a, b, c], None, 0, 0), map[], 0.0).0.(failures := 0);
      Run(env, again, map[], 0.0).0.lines != again.lines
  {
    KindsOfComment();
    HiddenPair(env, a, b, c);
  }

  lemma HiddenPair(env: Env, a: Line, b: Line, c: Line)
    requires Reliable(env) && GoodNotes(env)
    requires a.txn == 0 && b.txn == 1 && c.txn == 2 && !a.reversed && !b.reversed && !c.reversed
    requires a.comment == b.comment && Trim(a.comment) != "" && !IsStale(a.comment)
    requires Trim(c.comment) in INHERITED && IsStale(c.comment)
    requires !("Reversal entry" <= Trim(a.comment)) && !("Reversal entry" <= Trim(c.comment))
    ensures var again := Run(env, Gl([a, b, c], None, 0, 0), map[], 0.0).0.(failures := 0);
      Run(env, again, map[], 0.0).0.lines != again.lines
  {
    ThreeLines(a, b, c);
    UnreversedIsSound(env, [a, b, c]);
    PairHidden(env, [a, b, c]);
  }

  lemma PairHidden(env: Env, lines: seq<Line>)
    requires Reliable(env) && GoodNotes(env) && Sound(env, lines)
    requires Throws(lines) && Shares(lines, 0, 1) && Targets(lines, IsStale) <= {2}
    ensures var again := Run(env, Gl(lines, None, 0, 0), map[], 0.0).0.(failures := 0);
      Run(env, again, map[], 0.0).0.lines != again.lines
  {
    assert MappedId(map[], BOND_ACCOUNT) == 0;
    OnlyStaleGone(env, lines, map[], 0.0);
    PairSpared(lines, Gone(env, lines, map[], 0.0));
    SecondRunIdleIff(env, Gl(lines, None, 0, 0), map[], 0.0);
  }

  lemma PairSpared(lines: seq<Line>, gone: set<nat>)
    requires Shares(lines, 0, 1) && gone <= {2}
    ensures !Covered(lines, gone)
  {
    assert 0 !in gone && 1 !in gone;
  }

  /** With nothing mapped and grouping thrown, only stale transactions are reversed. */
  lemma OnlyStaleGone(env: Env, lines: seq<Line>, glMap: map<string, int>, expected: real)
    requires Throws(lines) && !Mapped(glMap)
    ensures Gone(env, lines, glMap, expected) <= Targets(lines, IsStale)
  {
    var picks := StalePicks(lines);
    StalePicksAre(lines);
    ReachedSome(Reversible(lines, Elements(picks)), picks);
  }

  lemma ThreeLines(a: Line, b: Line, c: Line)
    requires a.txn == 0 && b.txn == 1 && c.txn == 2 && !a.reversed && !b.reversed && !c.reversed
    requires a.comment == b.comment && Trim(a.comment) != "" && !IsStale(a.comment)
    requires Trim(c.comment) in INHERITED && IsStale(c.comment)
    ensures var lines := [a, b, c];
      && Throws(lines) && Shares(lines, 0, 1) && Targets(lines, IsStale) <= {2}
      && forall l :: l in lines ==> l == a || l == b || l == c
  {
    var lines := [a, b, c];
    assert forall l :: l in lines <==> l == a || l == b || l == c;
    assert a in lines && b in lines && c in lines;
    assert FirstActive(lines, 0)[0] == a && FirstActive(lines, 1)[0] == b && FirstActive(lines, 2)[0] == c;
    assert CommentOf(lines, 0) == CommentOf(lines, 1) == Trim(a.comment) && CommentOf(lines, 2) == Trim(c.comment);
    assert 2 in Txns(lines);
    assert Throws(lines) && Targets(lines, IsStale) <= {2};
  }

  /** A debit and a credit of one transaction. */
  function Double(txn: nat, amount: real, comment: string): seq<Line> {
    [Line(txn, 1, true, amount, comment, false), Line(txn, 2, false, amount, comment, false)]
  }

  lemma DoublePicks(txn: nat, amount: real, comment: string, chosen: string -> bool)
    requires chosen(comment)
    ensures Picks(Double(txn, amount, comment), chosen) == [txn, txn]
  {
    var lines := Double(txn, amount, comment);
    assert lines[1..][1..] == [] && Picks(lines[1..], chosen) == [txn];
  }

  /**
   A stale transaction of four lines, two debits and two credits, before another: three refusals in
   a row cut the sweep short.
   */
  lemma FourLinesCutShort(env: Env, c: string, d: string, x: real, y: real, z: real)
    requires Reliable(env) && GoodNotes(env) && IsStale(c) && IsStale(d) && Trim(c) != Trim(d)
    requires Trim(c) !in INHERITED && Trim(d) !in INHERITED
    ensures var gl := Gl(Double(0, x, c) + Double(0, y, c) + Double(1, z, d), None, 0, 0);
      var again := Run(env, gl, map[], 0.0).0.(failures := 0);
      CleanUpStale(env, gl).1 == Some(1) && Run(env, again, map[], 0.0).0.lines != again.lines
  {
    var lines := Double(0, x, c) + Double(0, y, c) + Double(1, z, d);
    assert TwoTransactions(lines, c, d) by { assert lines[0] in lines && lines[4] in lines; }
    UnreversedIsSound(env, lines);
    SixLines(c, d, x, y, z);
    SixPicks();
    StaleSix(lines, c, d);
    SweepCutShort(env, Gl(lines, None, 0, 0));
  }

  lemma SweepCutShort(env: Env, gl: Gl)
    requires Reliable(env) && GoodNotes(env) && Sound(env, gl.lines) && Coherent(gl) && Ready(gl)
    requires CutShort(gl.lines, StalePicks(gl.lines)) && |Reached(gl.lines, StalePicks(gl.lines))| == 1
    ensures var again := Run(env, gl, map[], 0.0).0.(failures := 0);
      CleanUpStale(env, gl).1 == Some(1) && Run(env, again, map[], 0.0).0.lines != again.lines
  {
    Step2Complete(env, gl);
    SecondRunIdleIff(env, gl, map[], 0.0);
  }

  lemma SixPicks()
    ensures Blocked({0, 1}, [0, 0, 0, 0, 1, 1]) && |Through({0, 1}, [0, 0, 0, 0, 1, 1]).reached| == 1
  {
    var can, picks := {0, 1}, [0, 0, 0, 0, 1, 1];
    assert picks[..1] == [0] && picks[..2] == [0, 0] && picks[..3] == [0, 0, 0] && picks[..4] == [0, 0, 0, 0];
    assert Refusals(can, picks, 1) && New(can, picks, 4);
    ReachesAllIff(can, picks);
    ReachesFirst(can, picks);
    ReachedSome(can, picks);
    assert Elements(picks) == {0, 1} by { assert picks[0] == 0 && picks[4] == 1; }
    assert Through(can, picks).reached == {0};
  }

  /** Two unreversed transactions, each with a comment of its own. */
  ghost predicate TwoTransactions(lines: seq<Line>, c: string, d: string) {
    && (forall l :: l in lines ==> !l.reversed && ((l.txn == 0 && l.comment == c) || (l.txn == 1 && l.comment == d)))
    && (exists l :: l in lines && l.txn == 0) && (exists l :: l in lines && l.txn == 1)
  }

  lemma SixLines(c: string, d: string, x: real, y: real, z: real)
    requires IsStale(c) && IsStale(d)
    ensures Picks(Double(0, x, c) + Double(0, y, c) + Double(1, z, d), IsStale) == [0, 0, 0, 0, 1, 1]
  {
    DoublePicks(0, x, c, IsStale);
    DoublePicks(0, y, c, IsStale);
    DoublePicks(1, z, d, IsStale);
    PicksConcat(Double(0, x, c), Double(0, y, c), IsStale);
    PicksConcat(Double(0, x, c) + Double(0, y, c), Double(1, z, d), IsStale);
  }

  lemma StaleSix(lines: seq<Line>, c: string, d: string)
    requires TwoTransactions(lines, c, d) && Trim(c) != Trim(d) && Picks(lines, IsStale) == [0, 0, 0, 0, 1, 1]
    ensures StalePicks(lines) == [0, 0, 0, 0, 1, 1] && Reversible(lines, Elements(StalePicks(lines))) == {0, 1}
  {
    ApartComments(lines, c, d);
    NoDuplicates(lines);
    SpareNothing(Picks(lines, IsStale));
    assert Elements(Duplicates(lines)) == {};
    BothReversible(lines, c, d);
  }

  lemma BothReversible(lines: seq<Line>, c: string, d: string)
    requires TwoTransactions(lines, c, d)
    ensures Reversible(lines, Elements([0, 0, 0, 0, 1, 1])) == {0, 1}
  {
    var picks := [0, 0, 0, 0, 1, 1];
    assert Elements(picks) == {0, 1} by { assert picks[0] == 0 && picks[4] == 1; }
    assert CanReverse(lines, 0) && CanReverse(lines, 1);
  }

  lemma ApartComments(lines: seq<Line>, c: string, d: string)
    requires TwoTransactions(lines, c, d) && Trim(c) != Trim(d)
    ensures Covered(lines, {})
  {
    forall t, u ensures !Shares(lines, t, u) {
      assert Active(lines, t) ==> (t == 0 && CommentOf(lines, t) == Trim(c)) || (t == 1 && CommentOf(lines, t) == Trim(d));
      assert Active(lines, u) ==> (u == 0 && CommentOf(lines, u) == Trim(c)) || (u == 1 && CommentOf(lines, u) == Trim(d));
    }
  }

  /**
   One correction of four lines opens the circuit breaker: the account stays short, nothing is
   posted, and the second pass changes the ledger.
   */
  lemma FourLinesOpenBreaker(env: Env)
    requires Reliable(env) && GoodNotes(env)
    ensures var lines := Double(0, 10.0, CORRECTION) + Double(0, 10.0, CORRECTION);
      var gl, glMap := Gl(lines, None, 0, 0), map[BOND_ACCOUNT := 1, CORPUS_ACCOUNT := 2];
      var (gl', outcome) := CorrectBalance(env, gl, glMap, 100.0);
      var again := Run(env, gl, glMap, 100.0).0.(failures := 0);
      && CorrectionsTrip(lines) && NeedsCorrection(env, lines, 1, 100.0)
      && !outcome.Corrected? && Net(gl'.lines, Account(1)) < 99.0
      && Run(env, again, glMap, 100.0).0.lines != again.lines
  {
    var lines := Double(0, 10.0, CORRECTION) + Double(0, 10.0, CORRECTION);
    var gl, glMap := Gl(lines, None, 0, 0), map[BOND_ACCOUNT := 1, CORPUS_ACCOUNT := 2];
    assert MappedId(glMap, BOND_ACCOUNT) == 1 && MappedId(glMap, CORPUS_ACCOUNT) == 2;
    CorrectionIsKept();
    FourOfOne(lines, CORRECTION);
    UnreversedIsSound(env, lines);
    FourTrip(env, lines);
    FourUnsettled(env, lines, glMap);
    SecondRunIdleIff(env, gl, glMap, 100.0);
    CorrectionMeetsExpected(env, gl, glMap, 100.0);
  }

  lemma FourOfOne(lines: seq<Line>, c: string)
    requires lines == Double(0, 10.0, c) + Double(0, 10.0, c)
    requires IsCorrection(c) && !IsStale(c) && !("Reversal entry" <= Trim(c))
    ensures OneCalledFourTimes(lines)
    ensures forall l :: l in lines ==> !l.reversed && !("Reversal entry" <= Trim(l.comment))
  {
    var pair := Double(0, 10.0, c);
    DoublePicks(0, 10.0, c, IsCorrection);
    PicksConcat(pair, pair, IsCorrection);
    PairNet(0, 10.0, c, Account(1));
    PairNet(0, 10.0, c, Of({0}, Account(1)));
    NetConcat(pair, pair, Account(1));
    NetConcat(pair, pair, Of({0}, Account(1)));
    assert lines[0] in lines;
    assert forall t :: Active(lines, t) ==> t == 0;
  }

  /** One correction, called for four times and reversed by the first call. */
  ghost predicate OneCalledFourTimes(lines: seq<Line>) {
    && Picks(lines, IsCorrection) == [0, 0, 0, 0] && Targets(lines, IsStale) == {} && Covered(lines, {})
    && Net(lines, Account(1)) == Net(lines, Of({0}, Account(1))) == 20.0
    && CanReverse(lines, 0)
  }

  lemma FourTrip(env: Env, lines: seq<Line>)
    requires OneCalledFourTimes(lines)
    ensures CorrectionsTrip(lines) && CorrectionsReached(lines) == {0} && NeedsCorrection(env, lines, 1, 100.0)
  {
    var picks := [0, 0, 0, 0];
    var can := Reversible(lines, Elements(picks));
    assert picks[0] in picks && Elements(picks) == {0};
    assert Refusals(can, picks, 1);
    ReachesFirst(can, picks);
    ReachedSome(can, picks);
  }

  lemma FourUnsettled(env: Env, lines: seq<Line>, glMap: map<string, int>)
    requires OneCalledFourTimes(lines) && Sound(env, lines) && MappedId(glMap, BOND_ACCOUNT) == 1 && Mapped(glMap)
    ensures !Settles(env, lines, glMap, 100.0)
  {
    FourTrip(env, lines);
    ExposedAre(env, lines);
    TidyIdleIff(env, lines);
    QuietStep2(env, lines);
    OfNone(lines, Account(1));
    assert EntersLoop(env, lines, glMap, 100.0);
    assert Gone(env, lines, glMap, 100.0) == {0};
  }

  lemma PairNet(txn: nat, amount: real, comment: string, scope: Scope)
    requires scope == Account(1) || scope == Of({txn}, Account(1))
    ensures Net(Double(txn, amount, comment), scope) == amount
  {
    var pair := Double(txn, amount, comment);
    assert pair[..1] == [pair[0]] && [pair[0]][..0] == [];
    assert In(pair[0], Account(1)) && !In(pair[1], Account(1));
    assert Net([pair[0]], scope) == amount;
  }
}
