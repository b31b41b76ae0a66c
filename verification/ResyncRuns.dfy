/** What the two steps come to, in terms of the transactions they reverse, whichever calls fail. */
module ResyncRuns {
  import opened CircuitBreaker
  import opened Comments
  import opened LedgerSweeps
  import opened RemoteGl
  import opened Resync
  import opened Reversals
  import opened Seqs
  import opened Wrappers

  lemma NotesAreKept(env: Env)
    requires GoodNotes(env)
    ensures forall t :: !IsStale(env.note(t)) && !IsCorrection(env.note(t))
  {
    forall t ensures !IsStale(env.note(t)) && !IsCorrection(env.note(t)) {
      ReversalIsKept(env.note(t));
    }
  }

  /** An up-to-date cache makes a listing show the ledger, if it shows anything. */
  lemma ListCoherent(env: Env, gl: Gl)
    requires Coherent(gl)
    ensures var (gl', entries) := ListCall(env, gl);
      && gl'.lines == gl.lines && Coherent(gl') && gl'.calls == gl.calls + 1
      && (entries == None || (entries == Some(gl.lines) && gl'.cache == entries))
      && (Reliable(env) && gl.failures < 3 ==> entries.Some? && gl'.failures < 3)
      && (Reliable(env) && Ready(gl) ==> entries.Some? && gl'.failures == 0)
  {
  }

  lemma LegitConcat(env: Env, lines: seq<Line>, a: seq<nat>, b: seq<nat>)
    requires Legit(lines, a) && Legit(Undo(env, lines, a), b) && Below(lines, b)
    ensures Legit(lines, a + b) && Elements(a + b) == Elements(a) + Elements(b)
  {
    forall t | t in b ensures t !in a && CanReverse(lines, t) {
      UndoStatus(env, lines, a, t);
    }
    assert forall t :: t in a + b <==> t in a || t in b;
    DistinctConcat(a, b);
  }

  // ---- Step 2 --------------------------------------------------------------------------

  function CleanupLog(env: Env, gl: Gl): seq<nat> {
    var (gl', entries) := ListCall(env, gl);
    if entries.None? then [] else Log(env, gl', Duplicates(entries.value))
  }

  function SweepLog(env: Env, gl: Gl): seq<nat> {
    var (gl', entries) := ListCall(env, gl);
    if entries.None? then [] else Log(env, gl', Picks(entries.value, IsStale))
  }

  /** The transactions step 2 reverses. */
  function Step2Log(env: Env, gl: Gl): seq<nat> {
    CleanupLog(env, gl) + SweepLog(env, Cleanup(env, gl))
  }

  /** The transactions step 2 goes for and the ledger would not refuse. */
  function Step2Exposed(lines: seq<Line>): set<nat> {
    Reversible(lines, Elements(Duplicates(lines)) + Targets(lines, IsStale))
  }

  lemma CleanupUndoes(env: Env, gl: Gl)
    requires Coherent(gl)
    ensures var gl', log := Cleanup(env, gl), CleanupLog(env, gl);
      && gl'.lines == Undo(env, gl.lines, log) && Legit(gl.lines, log)
      && Elements(log) <= Reversible(gl.lines, Elements(Duplicates(gl.lines)))
      && (gl'.cache == None || gl'.cache == Some(gl.lines))
  {
    var (gl', entries) := ListCall(env, gl);
    ListCoherent(env, gl);
    if entries.Some? {
      DuplicatesBelow(gl.lines);
      LoopUndoes(env, gl', Duplicates(gl.lines));
    }
  }

  lemma TargetsBelow(lines: seq<Line>, chosen: string -> bool)
    ensures forall t :: t in Targets(lines, chosen) ==> t < FreshId(lines)
  {
    assert forall l :: l in lines ==> l.txn < FreshId(lines);
  }

  /** What the stale sweep picks was stale when step 2 began, also when it reads a cached listing. */
  lemma StaleBefore(env: Env, lines: seq<Line>, log: seq<nat>, snapshot: seq<Line>)
    requires GoodNotes(env) && (snapshot == lines || snapshot == Undo(env, lines, log))
    ensures Elements(Picks(snapshot, IsStale)) <= Targets(lines, IsStale)
  {
    NotesAreKept(env);
    UndoTargets(env, lines, log, IsStale);
    PicksAreTargets(snapshot, IsStale);
  }

  lemma StillBelow(env: Env, lines: seq<Line>, log: seq<nat>, picks: seq<nat>)
    requires Legit(lines, log) && Elements(picks) <= Targets(lines, IsStale)
    ensures Below(lines, picks) && Below(Undo(env, lines, log), picks)
  {
    TargetsBelow(lines, IsStale);
    forall t | t in picks ensures t < FreshId(lines) <= FreshId(Undo(env, lines, log)) {
      assert t in Elements(picks);
      UndoStatus(env, lines, log, t);
    }
  }

  /** The stale sweep reverses stale transactions of the ledger step 2 found. */
  lemma SweepUndoes(env: Env, gl: Gl, lines: seq<Line>, log: seq<nat>)
    requires GoodNotes(env) && Legit(lines, log) && gl.lines == Undo(env, lines, log)
    requires gl.cache == None || gl.cache == Some(lines)
    ensures var (gl', count) := SweepStale(env, gl);
      && gl'.lines == Undo(env, gl.lines, SweepLog(env, gl)) && Legit(gl.lines, SweepLog(env, gl))
      && Below(lines, SweepLog(env, gl))
      && Elements(SweepLog(env, gl)) <= Reversible(lines, Targets(lines, IsStale))
  {
    var (gl', entries) := ListCall(env, gl);
    if entries.Some? {
      var picks := Picks(entries.value, IsStale);
      StaleBefore(env, lines, log, entries.value);
      WhereIsAll(env, gl', IsStale, entries.value, 0);
      SweepLogIs(env, gl', lines, log, picks);
    }
  }

  lemma SweepLogIs(env: Env, gl: Gl, lines: seq<Line>, log: seq<nat>, picks: seq<nat>)
    requires Legit(lines, log) && gl.lines == Undo(env, lines, log) && Elements(picks) <= Targets(lines, IsStale)
    ensures var swept := Log(env, gl, picks);
      && ReverseAll(env, gl, picks).lines == Undo(env, gl.lines, swept) && Legit(gl.lines, swept) && Below(lines, swept)
      && Elements(swept) <= Reversible(lines, Targets(lines, IsStale))
  {
    StillBelow(env, lines, log, picks);
    LoopUndoes(env, gl, picks);
    TargetsBelow(lines, IsStale);
    UndoReversible(env, lines, log, Elements(picks));
    StillBelow(env, lines, log, Log(env, gl, picks));
  }

  /** Step 2 reverses duplicates and stale transactions only, whichever calls fail or get lost. */
  lemma Step2Undoes(env: Env, gl: Gl)
    requires GoodNotes(env) && Coherent(gl)
    ensures var log := Step2Log(env, gl);
      && CleanUpStale(env, gl).0.lines == Undo(env, gl.lines, log) && Legit(gl.lines, log)
      && Elements(log) <= Step2Exposed(gl.lines)
  {
    var a, b := CleanupLog(env, gl), SweepLog(env, Cleanup(env, gl));
    CleanupUndoes(env, gl);
    SweepUndoes(env, Cleanup(env, gl), gl.lines, a);
    LegitConcat(env, gl.lines, a, b);
    UndoConcat(env, gl.lines, a, b);
  }

  /** A loop of answered calls, begun with the ledger in the cache and the circuit breaker at rest. */
  lemma AnsweredLoop(env: Env, gl: Gl, txns: seq<nat>)
    requires Reliable(env) && Below(gl.lines, txns) && gl.failures == 0 && gl.cache == Some(gl.lines)
    ensures var gl', log := ReverseAll(env, gl, txns), Log(env, gl, txns);
      && gl'.lines == Undo(env, gl.lines, log) && Legit(gl.lines, log) && Coherent(gl')
      && Elements(log) == Reached(gl.lines, txns)
      && gl'.cache == (if log == [] then Some(gl.lines) else None)
      && (gl'.failures >= 3 <==> Trips(gl.lines, txns))
      && (txns == [] ==> gl' == gl)
  {
    assert LossFree(env);
    LoopUndoes(env, gl, txns);
    LoopComplete(env, gl, txns);
  }

  /** When every call that is sent is answered, the clean-up goes as far as a loop over the duplicates can. */
  lemma CleanupReaches(env: Env, gl: Gl)
    requires Reliable(env) && Coherent(gl) && Ready(gl)
    ensures var gl', log, duplicates := Cleanup(env, gl), CleanupLog(env, gl), Duplicates(gl.lines);
      && gl'.lines == Undo(env, gl.lines, log) && Legit(gl.lines, log) && Coherent(gl')
      && Elements(log) == Reached(gl.lines, duplicates)
      && gl'.cache == (if log == [] then Some(gl.lines) else None)
      && (gl'.failures >= 3 <==> Trips(gl.lines, duplicates))
      && (duplicates == [] ==> gl'.failures == 0)
  {
    ListCoherent(env, gl);
    DuplicatesBelow(gl.lines);
    AnsweredLoop(env, ListCall(env, gl).0, Duplicates(gl.lines));
  }

  /** A sound ledger refuses no duplicate, so all are reversed. */
  lemma CleanupComplete(env: Env, gl: Gl)
    requires Reliable(env) && Sound(env, gl.lines) && Coherent(gl) && Ready(gl)
    ensures var gl', log := Cleanup(env, gl), CleanupLog(env, gl);
      && gl'.lines == Undo(env, gl.lines, log) && Legit(gl.lines, log) && Coherent(gl') && Ready(gl')
      && Elements(log) == Elements(Duplicates(gl.lines))
  {
    var duplicates := Duplicates(gl.lines);
    CleanupReaches(env, gl);
    SoundDuplicates(env, gl.lines);
    DuplicatesDistinct(gl.lines);
    NeverOpens(Elements(duplicates), duplicates);
    BlockedOpens(Elements(duplicates), duplicates);
    ReachesAllIff(Elements(duplicates), duplicates);
    NoElements(CleanupLog(env, gl));
    NoElements(duplicates);
  }

  lemma SoundDuplicates(env: Env, lines: seq<Line>)
    requires Sound(env, lines)
    ensures Reversible(lines, Elements(Duplicates(lines))) == Elements(Duplicates(lines))
  {
    VictimsFrom(lines, Txns(lines), Keys(lines, Txns(lines)));
    forall t | t in Elements(Duplicates(lines)) ensures CanReverse(lines, t) {
      assert t in Txns(lines);
    }
  }

  lemma StaleCounted(env: Env, gl: Gl, snapshot: seq<Line>, picks: seq<nat>)
    requires Reliable(env) && picks == Picks(snapshot, IsStale) && Distinct(Log(env, gl, picks))
    ensures ReverseWhere(env, gl, IsStale, snapshot, 0).0 == ReverseAll(env, gl, picks)
    ensures ReverseWhere(env, gl, IsStale, snapshot, 0).1 == |Elements(Log(env, gl, picks))|
  {
    WhereIsAll(env, gl, IsStale, snapshot, 0);
    SweepCounts(env, gl, IsStale, snapshot, 0);
    DistinctSize(Log(env, gl, picks));
  }

  /** And so does the stale sweep, which counts what it reverses. */
  lemma SweepReaches(env: Env, gl: Gl)
    requires Reliable(env) && Coherent(gl) && Ready(gl)
    ensures var (gl', count) := SweepStale(env, gl);
      var log, picks := SweepLog(env, gl), Picks(gl.lines, IsStale);
      && gl'.lines == Undo(env, gl.lines, log) && Legit(gl.lines, log) && Coherent(gl')
      && Elements(log) == Reached(gl.lines, picks)
      && (log != [] ==> gl'.cache == None)
      && (gl'.failures >= 3 <==> Trips(gl.lines, picks))
      && (picks == [] ==> gl'.failures == 0)
      && count == Some(|Reached(gl.lines, picks)|)
  {
    var listed, picks := ListCall(env, gl).0, Picks(gl.lines, IsStale);
    ListCoherent(env, gl);
    PicksBelow(gl.lines, IsStale);
    AnsweredLoop(env, listed, picks);
    StaleCounted(env, listed, gl.lines, picks);
  }

  // ---- Step 2 when every call that is sent is answered, told from the ledger before ---------

  /** The calls of the stale sweep, line by line. */
  function StalePicks(lines: seq<Line>): seq<nat> {
    Spare(Picks(lines, IsStale), Elements(Duplicates(lines)))
  }

  /** The transactions step 2 reverses on a sound ledger. */
  function Step2Reached(lines: seq<Line>): set<nat> {
    Elements(Duplicates(lines)) + Reached(lines, StalePicks(lines))
  }

  lemma StalePicksAre(lines: seq<Line>)
    ensures Elements(StalePicks(lines)) == Targets(lines, IsStale) - Elements(Duplicates(lines))
    ensures Below(lines, StalePicks(lines))
  {
    SpareElements(Picks(lines, IsStale), Elements(Duplicates(lines)));
    PicksAreTargets(lines, IsStale);
    TargetsBelow(lines, IsStale);
    forall t | t in StalePicks(lines) ensures t < FreshId(lines) {
      assert t in Elements(StalePicks(lines));
    }
  }

  /** What the clean-up of duplicates leaves to the stale sweep. */
  lemma StaleLeft(env: Env, lines: seq<Line>, log: seq<nat>)
    requires GoodNotes(env) && Legit(lines, log) && Elements(log) == Elements(Duplicates(lines))
    ensures var after, picks := Undo(env, lines, log), StalePicks(lines);
      && Picks(after, IsStale) == picks && Below(lines, picks)
      && Reached(after, picks) == Reached(lines, picks) && (Trips(after, picks) <==> Trips(lines, picks))
  {
    NotesAreKept(env);
    UndoPicks(env, lines, log, IsStale);
    StalePicksAre(lines);
    ReachedAfter(env, lines, log, StalePicks(lines));
  }

  /**
   When every call that is sent is answered, step 2 on a sound ledger reverses all duplicates, and
   all stale transactions exactly when none of these first comes up after three calls in a row
   for transactions that came up before. staleReversed counts those reversed that are not
   duplicates. After three such calls in a row the circuit breaker is left open, with nothing cached.
   */
  lemma Step2Complete(env: Env, gl: Gl)
    requires Reliable(env) && GoodNotes(env) && Sound(env, gl.lines) && Coherent(gl) && Ready(gl)
    ensures var (gl', count) := CleanUpStale(env, gl);
      var picks := StalePicks(gl.lines);
      && Elements(Step2Log(env, gl)) == Step2Reached(gl.lines)
      && (Step2Reached(gl.lines) == Step2Exposed(gl.lines) <==> !CutShort(gl.lines, picks))
      && count == Some(|Reached(gl.lines, picks)|)
      && Coherent(gl')
      && (if Trips(gl.lines, picks) then gl'.failures >= 3 && gl'.cache == None else Ready(gl'))
  {
    var cleaned, log := Cleanup(env, gl), CleanupLog(env, gl);
    CleanupComplete(env, gl);
    StaleLeft(env, gl.lines, log);
    SweepReaches(env, cleaned);
    LogElementsConcat(log, SweepLog(env, cleaned));
    CompleteIff(env, gl.lines);
    NoElements(SweepLog(env, cleaned));
    FirstIsReached(env, gl.lines);
  }

  lemma LogElementsConcat(a: seq<nat>, b: seq<nat>)
    ensures Elements(a + b) == Elements(a) + Elements(b)
  {
  }

  lemma CompleteIff(env: Env, lines: seq<Line>)
    requires Sound(env, lines)
    ensures Step2Reached(lines) == Step2Exposed(lines) <==> !CutShort(lines, StalePicks(lines))
  {
    var picks := StalePicks(lines);
    ExposedAre(env, lines);
    ReachesAllIff(Elements(picks), picks);
    ReachedSome(Elements(picks), picks);
    assert Elements(picks) * Elements(picks) == Elements(picks) && Elements(picks) !! Elements(Duplicates(lines));
  }

  /** On a sound ledger step 2 goes for the duplicates and for what the stale sweep picks. */
  lemma ExposedAre(env: Env, lines: seq<Line>)
    requires Sound(env, lines)
    ensures var picks := StalePicks(lines);
      && Reversible(lines, Elements(picks)) == Elements(picks) == Targets(lines, IsStale) - Elements(Duplicates(lines))
      && Step2Exposed(lines) == Elements(Duplicates(lines)) + Elements(picks)
      && Step2Exposed(lines) == Elements(Duplicates(lines)) + Targets(lines, IsStale)
  {
    StalePicksAre(lines);
    SoundDuplicates(env, lines);
    SoundTargets(env, lines, IsStale);
  }

  /** The first stale transaction is always reversed. */
  lemma FirstIsReached(env: Env, lines: seq<Line>)
    requires Sound(env, lines)
    ensures StalePicks(lines) != [] ==> StalePicks(lines)[0] in Reached(lines, StalePicks(lines))
  {
    ExposedAre(env, lines);
    if StalePicks(lines) != [] { ReachesFirst(Elements(StalePicks(lines)), StalePicks(lines)); }
  }

  /** A sound ledger refuses no transaction that a sweep goes for. */
  lemma SoundTargets(env: Env, lines: seq<Line>, chosen: string -> bool)
    requires Sound(env, lines)
    ensures Reversible(lines, Targets(lines, chosen)) == Targets(lines, chosen)
  {
  }

  /**
   Under the same conditions: every transaction that was neither duplicate nor stale is still
   there; every unreversed commented line announces a trust entry or a reversal iff the sweep was
   not cut short; and no comment is shared iff none of the transactions left shared one, as is
   always so unless grouping threw.
   */
  lemma StaleSweep(env: Env, gl: Gl)
    requires Reliable(env) && GoodNotes(env) && Sound(env, gl.lines) && Coherent(gl) && Ready(gl)
    ensures var lines := CleanUpStale(env, gl).0.lines;
      && Sound(env, lines)
      && ((forall l :: l in lines && !l.reversed ==>
             Trim(l.comment) == "" || "Trust JE " <= Trim(l.comment) || "Reversal entry" <= Trim(l.comment))
           <==> !CutShort(gl.lines, StalePicks(gl.lines)))
      && (forall t :: Active(gl.lines, t) && t !in Step2Exposed(gl.lines) ==> Active(lines, t))
      && (Covered(lines, {}) <==> Covered(gl.lines, Step2Reached(gl.lines)))
      && (!Throws(gl.lines) ==> Covered(lines, {}))
  {
    var log, lines := Step2Log(env, gl), CleanUpStale(env, gl).0.lines;
    Step2Undoes(env, gl);
    Step2Complete(env, gl);
    NoneStaleIff(env, gl.lines, log);
    PlainComments(lines);
    OthersStand(env, gl.lines, log, Step2Exposed(gl.lines));
    SharedAfter(env, gl.lines, log);
  }

  lemma OthersStand(env: Env, lines: seq<Line>, log: seq<nat>, exposed: set<nat>)
    requires Legit(lines, log) && Elements(log) <= exposed
    ensures forall t :: Active(lines, t) && t !in exposed ==> Active(Undo(env, lines, log), t)
  {
    forall t | Active(lines, t) && t !in exposed ensures Active(Undo(env, lines, log), t) {
      assert t in log ==> t in Elements(log);
      UndoStatus(env, lines, log, t);
    }
  }

  lemma SharedAfter(env: Env, lines: seq<Line>, log: seq<nat>)
    requires GoodNotes(env) && Sound(env, lines) && Legit(lines, log) && Elements(log) == Step2Reached(lines)
    ensures var after := Undo(env, lines, log);
      && Sound(env, after) && (Covered(after, {}) <==> Covered(lines, Step2Reached(lines)))
      && (!Throws(lines) ==> Covered(after, {}))
  {
    UndoSound(env, lines, log);
    UndoCovers(env, lines, log, {});
    assert {} + Elements(log) == Elements(log);
    if !Throws(lines) { DuplicatesCover(lines); }
  }

  lemma PlainComments(lines: seq<Line>)
    ensures NonePicked(lines, IsStale) <==> forall l :: l in lines && !l.reversed ==>
      Trim(l.comment) == "" || "Trust JE " <= Trim(l.comment) || "Reversal entry" <= Trim(l.comment)
  {
    if NonePicked(lines, IsStale) {
      forall l | l in lines && !l.reversed ensures !IsStale(l.comment) { assert !Picked(l, IsStale); }
    }
  }

  lemma NoneStaleIff(env: Env, lines: seq<Line>, log: seq<nat>)
    requires GoodNotes(env) && Sound(env, lines) && Elements(log) == Step2Reached(lines)
    ensures NonePicked(Undo(env, lines, log), IsStale) <==> !CutShort(lines, StalePicks(lines))
  {
    NotesAreKept(env);
    UndoTargets(env, lines, log, IsStale);
    NonePickedIff(Undo(env, lines, log), IsStale);
    ExposedAre(env, lines);
    CompleteIff(env, lines);
    ReachedSome(Elements(StalePicks(lines)), StalePicks(lines));
    NothingOver(Targets(lines, IsStale), Elements(Duplicates(lines)), Reached(lines, StalePicks(lines)));
  }

  lemma NothingOver(targets: set<nat>, duplicates: set<nat>, reached: set<nat>)
    requires reached <= targets - duplicates
    ensures targets - (duplicates + reached) == {} <==> duplicates + reached == duplicates + targets
  {
    NoneOver(targets, duplicates + reached);
  }

  // ---- Step 6 ------------------------------------------------------------------------

  /** The old corrections step 6 goes for and the ledger would not refuse. */
  function CorrectionsExposed(lines: seq<Line>): set<nat> {
    Reversible(lines, Targets(lines, IsCorrection))
  }

  /** Those it reverses when every call that is sent is answered. */
  function CorrectionsReached(lines: seq<Line>): set<nat> {
    Reached(lines, Picks(lines, IsCorrection))
  }

  /** They are all of them iff the loop is not cut short. */
  lemma CorrectionsReachedIff(lines: seq<Line>)
    ensures CorrectionsReached(lines) <= CorrectionsExposed(lines)
    ensures CorrectionsReached(lines) == CorrectionsExposed(lines) <==> !CutShort(lines, Picks(lines, IsCorrection))
    ensures CutShort(lines, Picks(lines, IsCorrection)) ==> Trips(lines, Picks(lines, IsCorrection))
  {
    var picks := Picks(lines, IsCorrection);
    PicksAreTargets(lines, IsCorrection);
    ReachesAllIff(CorrectionsExposed(lines), picks);
    ReachedSome(CorrectionsExposed(lines), picks);
    BlockedOpens(CorrectionsExposed(lines), picks);
    assert CorrectionsExposed(lines) * Elements(picks) == CorrectionsExposed(lines);
  }

  /** Where the loop over the old corrections starts, and where it ends when the listing showed `seen`. */
  function BeforeLoop(env: Env, gl: Gl): Gl {
    LookupCall(env, ListCall(env, gl).0).0
  }

  function LoopOver(env: Env, gl: Gl, seen: seq<Line>): Gl {
    ReverseAll(env, BeforeLoop(env, gl), Picks(seen, IsCorrection))
  }

  function LogOver(env: Env, gl: Gl, seen: seq<Line>): seq<nat> {
    Log(env, BeforeLoop(env, gl), Picks(seen, IsCorrection))
  }

  /** The same when it showed the ledger. */
  function AfterLoop(env: Env, gl: Gl): Gl {
    LoopOver(env, gl, gl.lines)
  }

  function CorrectionLog(env: Env, gl: Gl): seq<nat> {
    LogOver(env, gl, gl.lines)
  }

  lemma CorrectionsUndone(env: Env, gl: Gl)
    requires Coherent(gl) && ListCall(env, gl).1.Some?
    ensures var gl', log := AfterLoop(env, gl), CorrectionLog(env, gl);
      && gl'.lines == Undo(env, gl.lines, log) && Legit(gl.lines, log)
      && Elements(log) <= CorrectionsExposed(gl.lines)
      && (gl'.cache == None || gl'.cache == Some(gl.lines))
      && (LossFree(env) ==> Coherent(gl'))
  {
    var picks := Picks(gl.lines, IsCorrection);
    ListCoherent(env, gl);
    PicksBelow(gl.lines, IsCorrection);
    PicksAreTargets(gl.lines, IsCorrection);
    LoopUndoes(env, BeforeLoop(env, gl), picks);
  }

  /** The listing and the expected value can be had. */
  predicate Reads(env: Env, gl: Gl) {
    ListCall(env, gl).1.Some? && LookupCall(env, ListCall(env, gl).0).1
  }

  /** Step 6 stops before the loop, or goes through the loop and measures again. */
  lemma Step6Branches(env: Env, gl: Gl, bondInv: int, corpus: int, expected: real)
    requires Coherent(gl)
    ensures var (gl', outcome), n := CorrectAccount(env, gl, bondInv, corpus, expected), Net(gl.lines, Account(bondInv));
      if !Reads(env, gl) then gl'.lines == gl.lines && outcome.Aborted? && !(Reliable(env) && gl.failures < 3)
      else if Abs(expected - n) <= 1.0 then gl'.lines == gl.lines && outcome == WithinTolerance(n)
      else CorrectAccount(env, gl, bondInv, corpus, expected) ==
             Recorrect(env, AfterLoop(env, gl), bondInv, corpus, expected)
  {
    ListCoherent(env, gl);
    WhereIsAll(env, BeforeLoop(env, gl), IsCorrection, gl.lines, 0);
  }

  /** What a listing may show: the ledger, or what an uncleared cache still holds. */
  predicate SeenBy(gl: Gl, seen: seq<Line>) {
    seen == gl.lines || gl.cache == Some(seen)
  }

  lemma ListShows(env: Env, gl: Gl)
    ensures var (listed, entries) := ListCall(env, gl);
      && listed.lines == gl.lines
      && (entries.Some? ==> SeenBy(gl, entries.value) && listed.cache == entries)
  {
  }

  /** Whatever the listing showed, step 6 stops there or goes through a loop over it and measures again. */
  lemma BranchesOver(env: Env, gl: Gl, seen: seq<Line>, bondInv: int, corpus: int, expected: real)
    requires ListCall(env, gl).1 == Some(seen)
    ensures var (gl', outcome), m := CorrectAccount(env, gl, bondInv, corpus, expected), Net(seen, Account(bondInv));
      if !Reads(env, gl) then gl'.lines == gl.lines && outcome.Aborted?
      else if Abs(expected - m) <= 1.0 then gl'.lines == gl.lines && outcome == WithinTolerance(m)
      else CorrectAccount(env, gl, bondInv, corpus, expected) ==
             Recorrect(env, LoopOver(env, gl, seen), bondInv, corpus, expected)
  {
    WhereIsAll(env, BeforeLoop(env, gl), IsCorrection, seen, 0);
  }

  /** The transactions step 6 goes for when its listing shows `seen`, and the ledger would not refuse. */
  function ExposedBy(lines: seq<Line>, seen: seq<Line>): set<nat> {
    Reversible(lines, Targets(seen, IsCorrection))
  }

  lemma UndoneOver(env: Env, gl: Gl, seen: seq<Line>)
    requires ListCall(env, gl).1 == Some(seen) && Below(gl.lines, Picks(seen, IsCorrection))
    ensures var gl', log := LoopOver(env, gl, seen), LogOver(env, gl, seen);
      && gl'.lines == Undo(env, gl.lines, log) && Legit(gl.lines, log) && Elements(log) <= ExposedBy(gl.lines, seen)
      && (gl'.cache == None || gl'.cache == Some(seen))
  {
    ListShows(env, gl);
    PicksAreTargets(seen, IsCorrection);
    LoopUndoes(env, BeforeLoop(env, gl), Picks(seen, IsCorrection));
  }

  lemma RecorrectShape(env: Env, gl: Gl, bondInv: int, corpus: int, expected: real)
    ensures var (gl', outcome) := Recorrect(env, gl, bondInv, corpus, expected);
      && (outcome.Aborted? || outcome.AlreadyCorrect? || outcome.Corrected?)
      && (gl'.lines == gl.lines ||
          exists amount :: gl'.lines == AfterPost(gl.lines, bondInv, corpus, amount, CORRECTION))
      && (outcome.AlreadyCorrect? ==>
            gl'.lines == gl.lines && exists seen :: SeenBy(gl, seen) && expected - Net(seen, Account(bondInv)) <= 1.0)
      && (outcome.Corrected? ==>
            && gl'.lines == AfterPost(gl.lines, bondInv, corpus, outcome.amount, CORRECTION)
            && exists seen :: SeenBy(gl, seen) && outcome.amount == expected - Net(seen, Account(bondInv)) > 1.0)
  {
    var current := ListCall(env, gl).1;
    if current.Some? {
      assert SeenBy(gl, current.value);
      var amount := expected - Net(current.value, Account(bondInv));
      assert PostCall(env, gl, bondInv, corpus, amount, CORRECTION).0.lines in
             [gl.lines, AfterPost(gl.lines, bondInv, corpus, amount, CORRECTION)];
    }
  }
}
